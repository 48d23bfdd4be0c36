/** The measurements `RouteService` takes of a route: leg and total
    distance, the centroid of a set of places, the time and quality
    estimates, the score the strategies compete on, and the route records
    built from them. */
module RouteMetrics {
  import opened Wrappers
  import opened Seqs
  import opened Places
  import opened MapsUrl
  import opened Uri

  /** `RouteOptions`; `avoidBacktracking` is accepted by the source but never
      read, so it is not a field here. */
  datatype RouteOptions = RouteOptions(mode: Mode, maxDistance: Option<real>, preferScenicRoute: bool)

  datatype Quality = Excellent | Good | Fair

  /** `RouteResult`. */
  datatype RouteResult = RouteResult(
    orderedPlaces: seq<Place>,
    totalDistance: real,
    estimatedTime: int,
    gmapsUrl: string,
    routeQuality: Quality)

  /** `adjustDistanceForPreferences`: parks and walkways count as 20% closer
      when the scenic option is on. */
  function AdjustDistance(distance: Km, p: Place, options: RouteOptions): (r: Km)
    ensures options.preferScenicRoute && IsScenic(p) ==> r == distance * 0.8
    ensures !(options.preferScenicRoute && IsScenic(p)) ==> r == distance
    ensures r <= distance
  {
    if options.preferScenicRoute && IsScenic(p) then distance * 0.8 else distance
  }

  /** One leg of `calculateTotalDistance`: the distance between consecutive
      places when both have coordinates, nothing otherwise. */
  function Leg(dist: Distance, a: Place, b: Place): Km {
    if HasCoords(a) && HasCoords(b) then dist(CoordOf(a), CoordOf(b)) else 0.0
  }

  /** `calculateTotalDistance`. */
  function TotalDistance(dist: Distance, places: seq<Place>): (r: real)
    ensures r >= 0.0
    ensures |places| < 2 ==> r == 0.0
    decreases |places|
  {
    if |places| < 2 then 0.0 else Leg(dist, places[0], places[1]) + TotalDistance(dist, places[1..])
  }

  /** Places without coordinates contribute nothing: a list in which no
      place has coordinates has total distance 0. */
  lemma {:induction false} TotalDistanceNoCoords(dist: Distance, places: seq<Place>)
    requires forall i :: 0 <= i < |places| ==> LacksCoords(places[i])
    ensures TotalDistance(dist, places) == 0.0
    decreases |places|
  {
    if |places| >= 2 {
      TotalDistanceNoCoords(dist, places[1..]);
    }
  }

  /** The total distance splits at any place. */
  lemma {:induction false} TotalDistanceSplit(dist: Distance, a: seq<Place>, x: Place, b: seq<Place>)
    ensures TotalDistance(dist, a + [x] + b) == TotalDistance(dist, a + [x]) + TotalDistance(dist, [x] + b)
    decreases |a|
  {
    if |a| > 0 {
      assert (a + [x] + b)[1..] == a[1..] + [x] + b;
      assert (a + [x])[1..] == a[1..] + [x];
      if |a| == 1 {
        assert a[1..] + [x] + b == [x] + b;
        assert a[1..] + [x] == [x];
      } else {
        TotalDistanceSplit(dist, a[1..], x, b);
      }
    } else {
      assert a + [x] + b == [x] + b;
    }
  }

  function Sum(xs: seq<real>): real
    decreases |xs|
  {
    if |xs| == 0 then 0.0 else Sum(xs[..|xs| - 1]) + xs[|xs| - 1]
  }

  /** The legs `calculateTotalDistance`'s loop visits, in order: for each `i`
      below `places.length - 1`, the leg from `places[i]` to `places[i + 1]`. */
  function Legs(dist: Distance, places: seq<Place>): (legs: seq<real>)
    ensures |legs| == if |places| < 2 then 0 else |places| - 1
  {
    if |places| < 2 then []
    else seq(|places| - 1, i requires 0 <= i < |places| - 1 => Leg(dist, places[i], places[i + 1]))
  }

  /** The total distance is what the loop accumulates: the sum of its legs,
      added in index order. */
  lemma {:induction false} TotalDistanceIsLegSum(dist: Distance, places: seq<Place>)
    ensures TotalDistance(dist, places) == Sum(Legs(dist, places))
    decreases |places|
  {
    if |places| >= 2 {
      var rest := places[1..];
      TotalDistanceIsLegSum(dist, rest);
      assert Legs(dist, places) == [Leg(dist, places[0], places[1])] + Legs(dist, rest);
      SumCons(Leg(dist, places[0], places[1]), Legs(dist, rest));
    }
  }

  /** Adding in front is the same as adding at the end. */
  lemma {:induction false} SumCons(x: real, xs: seq<real>)
    ensures Sum([x] + xs) == x + Sum(xs)
    decreases |xs|
  {
    if |xs| > 0 {
      var init := xs[..|xs| - 1];
      assert ([x] + xs)[..|xs|] == [x] + init;
      SumCons(x, init);
    }
  }

  /** A sum of `n` values in `[lo, hi]` lies in `[n * lo, n * hi]`. */
  lemma {:induction false} SumBounds(xs: seq<real>, lo: real, hi: real)
    requires forall i :: 0 <= i < |xs| ==> lo <= xs[i] <= hi
    ensures |xs| as real * lo <= Sum(xs) <= |xs| as real * hi
    decreases |xs|
  {
    if |xs| > 0 {
      var init := xs[..|xs| - 1];
      var m := |init| as real;
      SumBounds(init, lo, hi);
      assert Sum(xs) == Sum(init) + xs[|xs| - 1];
      assert lo <= xs[|xs| - 1] <= hi;
      assert |xs| as real == m + 1.0;
      assert (m + 1.0) * lo == m * lo + lo && (m + 1.0) * hi == m * hi + hi;
    }
  }

  function Lats(places: seq<Place>): (r: seq<real>)
    ensures |r| == |places|
  {
    seq(|places|, i requires 0 <= i < |places| => CoordOf(places[i]).lat)
  }

  function Lngs(places: seq<Place>): (r: seq<real>)
    ensures |r| == |places|
  {
    seq(|places|, i requires 0 <= i < |places| => CoordOf(places[i]).lng)
  }

  /** `calculateCentroid`: the mean position of the places with coordinates,
      and (0, 0) when there are none. */
  function Centroid(places: seq<Place>): (c: Coord)
    ensures |WithCoords(places)| == 0 ==> c == Coord(0.0, 0.0)
  {
    var valid := WithCoords(places);
    if |valid| == 0 then Coord(0.0, 0.0)
    else Coord(Sum(Lats(valid)) / |valid| as real, Sum(Lngs(valid)) / |valid| as real)
  }

  /** The centroid lies in every box that holds all places with coordinates;
      in particular, places that all share one position have that position
      as centroid. */
  lemma CentroidWithin(places: seq<Place>, south: real, north: real, west: real, east: real)
    requires |WithCoords(places)| > 0
    requires forall p :: p in places && HasCoords(p) ==>
               south <= p.lat.value <= north && west <= p.lng.value <= east
    ensures south <= Centroid(places).lat <= north
    ensures west <= Centroid(places).lng <= east
  {
    var valid := WithCoords(places);
    forall i | 0 <= i < |valid| ensures south <= Lats(valid)[i] <= north && west <= Lngs(valid)[i] <= east {
      FilterMember(places, HasCoords, valid[i]);
    }
    MeanWithin(Lats(valid), south, north);
    MeanWithin(Lngs(valid), west, east);
  }

  /** The mean of values in `[lo, hi]` lies in `[lo, hi]`. */
  lemma MeanWithin(xs: seq<real>, lo: real, hi: real)
    requires |xs| > 0
    requires forall i :: 0 <= i < |xs| ==> lo <= xs[i] <= hi
    ensures lo <= Sum(xs) / |xs| as real <= hi
  {
    SumBounds(xs, lo, hi);
    DivBounds(Sum(xs), |xs| as real, lo, hi);
  }

  lemma DivBounds(s: real, n: real, lo: real, hi: real)
    requires n > 0.0 && n * lo <= s <= n * hi
    ensures lo <= s / n <= hi
  {
  }

  /** `Math.round`: the nearest integer, halves rounded up. */
  function Round(x: real): (r: int)
    ensures x - 0.5 < r as real <= x + 0.5
  {
    (x + 0.5).Floor
  }

  /** Rounding keeps order. */
  lemma RoundMonotone(x: real, y: real)
    requires x <= y
    ensures Round(x) <= Round(y)
  {
  }

  /** `estimateRouteTime`: travel at 4 km/h walking or 30 km/h driving, plus
      20 (walking) or 15 (driving) minutes per stop, rounded to whole
      minutes. */
  function EstimateRouteTime(distance: real, placeCount: nat, mode: Mode): (minutes: int)
    ensures mode == Walking ==>
              15.0 * distance + 20.0 * placeCount as real - 0.5 < minutes as real <= 15.0 * distance + 20.0 * placeCount as real + 0.5
    ensures mode == Driving ==>
              2.0 * distance + 15.0 * placeCount as real - 0.5 < minutes as real <= 2.0 * distance + 15.0 * placeCount as real + 0.5
  {
    var baseSpeed := if mode == Walking then 4.0 else 30.0;
    var travelTime := distance / baseSpeed * 60.0;
    var stopTime := placeCount * (if mode == Walking then 20 else 15);
    Round(travelTime + stopTime as real)
  }

  /** A longer route with at least as many stops never takes less time. */
  lemma EstimateRouteTimeMonotone(d1: real, d2: real, n1: nat, n2: nat, mode: Mode)
    requires d1 <= d2 && n1 <= n2
    ensures EstimateRouteTime(d1, n1, mode) <= EstimateRouteTime(d2, n2, mode)
  {
    var speed := if mode == Walking then 4.0 else 30.0;
    var stop := if mode == Walking then 20 else 15;
    assert d1 / speed * 60.0 <= d2 / speed * 60.0;
    assert n1 * stop <= n2 * stop;
    RoundMonotone(d1 / speed * 60.0 + (n1 * stop) as real, d2 / speed * 60.0 + (n2 * stop) as real);
  }

  /** The number of legs `assessRouteQuality` averages over:
      `Math.max(1, placeCount - 1)`. */
  function LegCount(placeCount: nat): (k: nat)
    ensures k >= 1 && k + 1 >= placeCount
  {
    if placeCount - 1 > 1 then placeCount - 1 else 1
  }

  /** `assessRouteQuality`: excellent when both the distance and the average
      leg are short, good when both are moderate, fair otherwise. The
      average-leg thresholds are stated here as distance bounds: walking is
      excellent below 0.5 km per leg and 3 km in all, good below 1 km per
      leg and 5 km; driving below 2 km per leg and 15 km, and 5 km per leg
      and 25 km. */
  function AssessRouteQuality(distance: real, placeCount: nat, mode: Mode): (q: Quality)
    ensures distance == 0.0 ==> q == Excellent
    ensures q == Excellent ==> distance < (if mode == Walking then 3.0 else 15.0)
    ensures distance >= (if mode == Walking then 5.0 else 25.0) ==> q == Fair
    ensures mode == Walking ==>
              (q == Excellent <==> distance < 3.0 && distance < 0.5 * LegCount(placeCount) as real) &&
              (q == Good <==> q != Excellent && distance < 5.0 && distance < 1.0 * LegCount(placeCount) as real)
    ensures mode == Driving ==>
              (q == Excellent <==> distance < 15.0 && distance < 2.0 * LegCount(placeCount) as real) &&
              (q == Good <==> q != Excellent && distance < 25.0 && distance < 5.0 * LegCount(placeCount) as real)
  {
    var legs := LegCount(placeCount) as real;
    var avgDistancePerPlace := distance / legs;
    DivBelow(distance, legs, 0.5);
    DivBelow(distance, legs, 1.0);
    DivBelow(distance, legs, 2.0);
    DivBelow(distance, legs, 5.0);
    if mode == Walking then
      if avgDistancePerPlace < 0.5 && distance < 3.0 then Excellent
      else if avgDistancePerPlace < 1.0 && distance < 5.0 then Good
      else Fair
    else
      if avgDistancePerPlace < 2.0 && distance < 15.0 then Excellent
      else if avgDistancePerPlace < 5.0 && distance < 25.0 then Good
      else Fair
  }

  /** Over a positive divisor, an average below `t` is a total below `t`
      times the divisor. */
  lemma DivBelow(d: real, k: real, t: real)
    requires k > 0.0
    ensures d / k < t <==> d < t * k
  {
    assert d == (d / k) * k;
  }

  function QualityRank(q: Quality): nat {
    match q
    case Excellent => 2
    case Good => 1
    case Fair => 0
  }

  /** For a fixed number of stops, a longer route is never rated better. */
  lemma QualityMonotone(d1: real, d2: real, placeCount: nat, mode: Mode)
    requires 0.0 <= d1 <= d2
    ensures QualityRank(AssessRouteQuality(d1, placeCount, mode)) >= QualityRank(AssessRouteQuality(d2, placeCount, mode))
  {
    DivMonotone(d1, d2, LegCount(placeCount) as real);
  }

  lemma DivMonotone(a: real, b: real, k: real)
    requires a <= b && k > 0.0
    ensures a / k <= b / k
  {
  }

  /** The number of parks and walkways on a route. */
  function ScenicCount(places: seq<Place>): nat {
    |Filter(places, IsScenic)|
  }

  /** `calculateRouteScore` before the final `Math.max(0, score)`. The
      maximum-distance penalty applies only when the option is set to a
      non-zero number, as `options.maxDistance && ...` reads 0 as false. */
  function RawScore(route: RouteResult, options: RouteOptions): real {
    var d := route.totalDistance;
    var overLimit := options.maxDistance.Some? && options.maxDistance.value != 0.0 && d > options.maxDistance.value;
    var penalty := if overLimit then (d - options.maxDistance.value) * 10.0 else 0.0;
    var timeBonus := if route.estimatedTime < 180 then 20.0 else 0.0;
    var scenicBonus := if options.preferScenicRoute then ScenicCount(route.orderedPlaces) as real * 10.0 else 0.0;
    100.0 - penalty - d * 2.0 + timeBonus + scenicBonus
  }

  /** `calculateRouteScore`. */
  function RouteScore(route: RouteResult, options: RouteOptions): (score: real)
    ensures score >= 0.0 && score >= RawScore(route, options)
    ensures score == 0.0 || score == RawScore(route, options)
  {
    var raw := RawScore(route, options);
    if raw > 0.0 then raw else 0.0
  }

  /** Holding everything else fixed, a longer route never scores higher. */
  lemma ScoreNonIncreasingInDistance(route: RouteResult, options: RouteOptions, d1: real, d2: real)
    requires d1 <= d2
    ensures RouteScore(route.(totalDistance := d1), options) >= RouteScore(route.(totalDistance := d2), options)
  {
  }

  /** The scenic option adds exactly 10 points per park or walkway before
      the floor at 0. */
  lemma ScenicBonus(route: RouteResult, options: RouteOptions)
    ensures RawScore(route, options.(preferScenicRoute := true)) ==
            RawScore(route, options.(preferScenicRoute := false)) + 10.0 * ScenicCount(route.orderedPlaces) as real
  {
  }

  /** An empty route that takes no time scores 120, the most any route
      without a scenic bonus can score. */
  lemma ScoreCeiling(route: RouteResult, options: RouteOptions)
    requires route.totalDistance >= 0.0 && !options.preferScenicRoute
    ensures RouteScore(route, options) <= 120.0
    ensures route.totalDistance == 0.0 && route.estimatedTime < 180 && options.maxDistance.None? ==>
              RouteScore(route, options) == 120.0
  {
  }

  /** `createRouteResult`. */
  function CreateRouteResult(places: seq<Place>, totalDistance: real, options: RouteOptions, show: Show): (r: RouteResult)
    ensures r.orderedPlaces == places && r.totalDistance == totalDistance
    ensures r.estimatedTime == EstimateRouteTime(totalDistance, |places|, options.mode)
    ensures r.routeQuality == AssessRouteQuality(totalDistance, |places|, options.mode)
    ensures r.gmapsUrl == BuildGoogleMapsUrl(places, options.mode, show)
    ensures r.gmapsUrl == "" <==> |places| == 0
    ensures ReportsOwnPlaces(r, options, show)
  {
    RouteResult(
      places,
      totalDistance,
      EstimateRouteTime(totalDistance, |places|, options.mode),
      BuildGoogleMapsUrl(places, options.mode, show),
      AssessRouteQuality(totalDistance, |places|, options.mode))
  }

  /** `createSinglePlaceRoute`: the one place, no distance, half an hour, and
      a link whose origin and destination are both that place. */
  function CreateSinglePlaceRoute(p: Place, options: RouteOptions, show: Show): (r: RouteResult)
    ensures r.orderedPlaces == [p] && r.totalDistance == 0.0
    ensures r.estimatedTime == 30 && r.routeQuality == Excellent
    ensures ParseDirections(r.gmapsUrl) ==
            Some(Directions(Token(p, show), Token(p, show), [], ModeName(options.mode)))
  {
    ParseBuild([p], options.mode, show);
    RouteResult([p], 0.0, 30, BuildGoogleMapsUrl([p], options.mode, show), Excellent)
  }

  /** `addressBasedRoute`: the places as given, no distance, 45 minutes per
      place, rated fair, with the directions link of the places. */
  function AddressBasedRoute(places: seq<Place>, options: RouteOptions, show: Show): (r: RouteResult)
    ensures r.orderedPlaces == places && r.totalDistance == 0.0
    ensures r.estimatedTime == 45 * |places| && r.routeQuality == Fair
    ensures r.gmapsUrl == BuildGoogleMapsUrl(places, options.mode, show)
    ensures ReportsOwnPlaces(r, options, show)
  {
    RouteResult(places, 0.0, |places| * 45, BuildGoogleMapsUrl(places, options.mode, show), Fair)
  }

  /** When no place has coordinates, the address route's link is made of
      addresses alone: its origin, destination and waypoints read back as
      the UTF-8 bytes of the places' addresses, in route order. */
  lemma AddressLinkReadsBack(places: seq<Place>, options: RouteOptions, show: Show)
    requires |places| > 0
    requires forall i :: 0 <= i < |places| ==> !HasCoords(places[i])
    ensures var d := ParseDirections(AddressBasedRoute(places, options, show).gmapsUrl);
            d.Some? && d.value.travelMode == ModeName(options.mode) &&
            DecodeBytes(d.value.origin) == Some(Utf8Bytes(places[0].address)) &&
            DecodeBytes(d.value.destination) == Some(Utf8Bytes(places[|places| - 1].address)) &&
            |d.value.waypoints| == (if |places| <= 2 then 0 else |places| - 2) &&
            forall k :: 0 <= k < |d.value.waypoints| ==>
              DecodeBytes(d.value.waypoints[k]) == Some(Utf8Bytes(places[k + 1].address))
  {
    ParseBuild(places, options.mode, show);
    var ws := Waypoints(places, show);
    if |places| > 2 {
      forall k | 0 <= k < |ws| ensures DecodeBytes(ws[k]) == Some(Utf8Bytes(places[k + 1].address)) {
        assert places[1..|places| - 1][k] == places[k + 1];
      }
    }
  }

  /** `fallbackRoute`: `createRouteResult` of the places as given with
      distance 0, so rated excellent, with the directions link of the
      places. */
  function FallbackRoute(places: seq<Place>, options: RouteOptions, show: Show): (r: RouteResult)
    ensures r.orderedPlaces == places && r.totalDistance == 0.0
    ensures r.estimatedTime == |places| * (if options.mode == Walking then 20 else 15)
    ensures r.routeQuality == Excellent
    ensures r.gmapsUrl == BuildGoogleMapsUrl(places, options.mode, show)
  {
    CreateRouteResult(places, 0.0, options, show)
  }

  /** The time, quality and link a route reports are those of its own
      places and distance: either as `createRouteResult` computes them, or
      as `addressBasedRoute` fixes them for a route of distance 0. */
  predicate ReportsOwnPlaces(r: RouteResult, options: RouteOptions, show: Show) {
    r.gmapsUrl == BuildGoogleMapsUrl(r.orderedPlaces, options.mode, show) &&
    ((r.estimatedTime == EstimateRouteTime(r.totalDistance, |r.orderedPlaces|, options.mode) &&
      r.routeQuality == AssessRouteQuality(r.totalDistance, |r.orderedPlaces|, options.mode)) ||
     (r.totalDistance == 0.0 && r.estimatedTime == 45 * |r.orderedPlaces| && r.routeQuality == Fair))
  }
}
