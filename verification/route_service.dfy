/** `RouteService.generateOptimalRoute`: run the three strategies, keep the
    first route with the strictly highest score, and fall back to the
    places as given when no strategy produced a route. */
module RouteService {
  import opened Wrappers
  import opened Seqs
  import opened ArgMin
  import opened BestOf
  import opened Greedy
  import opened StableSort
  import opened Places
  import opened RouteMetrics
  import opened Strategies
  import opened MapsUrl

  /** `route => routeScore(route, options)`. */
  function RouteScorer(options: RouteOptions): RouteResult -> real {
    (route: RouteResult) => RouteScore(route, options)
  }

  /** The score a strategy's outcome competes with; a strategy that threw
      scores -1. */
  function OutcomeScore(outcome: Option<RouteResult>, options: RouteOptions): real {
    OptScore(outcome, RouteScorer(options))
  }

  /** The loop as the source starts it, with no route and best score -1. */
  function BestRoute(outcomes: seq<Option<RouteResult>>, options: RouteOptions): Option<RouteResult> {
    PickBest(outcomes, RouteScorer(options), None, -1.0)
  }

  /** The loop keeps the first outcome of greatest score: since no route
      scores below 0, that is the first best route whenever some strategy
      succeeded, and nothing only when every strategy failed. */
  lemma BestRouteIsFirstMax(outcomes: seq<Option<RouteResult>>, options: RouteOptions)
    ensures |outcomes| > 0 ==> BestRoute(outcomes, options) == outcomes[FirstMinIndex(outcomes, NegOptScore(RouteScorer(options)))]
    ensures BestRoute(outcomes, options).None? <==> forall i :: 0 <= i < |outcomes| ==> outcomes[i].None?
  {
    forall x ensures RouteScorer(options)(x) >= 0.0 {
    }
    PickBestIsFirstMax(outcomes, RouteScorer(options));
  }

  /** `r` is the outcome at some index `i` of `c`: no outcome scores more,
      and every one before `i` scores less. */
  predicate IsFirstBest(c: seq<Option<RouteResult>>, r: RouteResult, options: RouteOptions) {
    exists i :: 0 <= i < |c| && c[i] == Some(r) &&
                (forall j :: 0 <= j < |c| ==> OutcomeScore(c[j], options) <= RouteScore(r, options)) &&
                (forall j :: 0 <= j < i ==> OutcomeScore(c[j], options) < RouteScore(r, options))
  }

  /** `bestRoute || this.fallbackRoute(places, options)`. */
  function SelectRoute(outcomes: seq<Option<RouteResult>>, places: seq<Place>, options: RouteOptions, show: Show): (r: RouteResult)
    ensures (forall i :: 0 <= i < |outcomes| ==> outcomes[i].None?) ==> r == FallbackRoute(places, options, show)
    ensures (exists i :: 0 <= i < |outcomes| && outcomes[i].Some?) ==> IsFirstBest(outcomes, r, options)
  {
    BestRouteIsFirstMax(outcomes, options);
    match BestRoute(outcomes, options)
    case Some(route) => route
    case None => FallbackRoute(places, options, show)
  }

  /** The three strategies in the order the source tries them; none of
      them fails in this model. */
  function Candidates(dist: Distance, places: seq<Place>, options: RouteOptions, show: Show): (c: seq<Option<RouteResult>>)
    ensures |c| == 3 && c[0].Some? && c[1].Some? && c[2].Some?
    ensures ReportsOwnPlaces(c[0].value, options, show) && ReportsOwnPlaces(c[1].value, options, show) &&
            ReportsOwnPlaces(c[2].value, options, show)
  {
    var nearest := NearestNeighborRoute(dist, places, options, show);
    var centroid := CentroidBasedRoute(dist, places, options, show);
    var category := CategoryOptimizedRoute(dist, places, options, show);
    Outcomes(nearest, centroid, category)
  }

  /** Three routes, each an outcome of a strategy that succeeded. */
  function Outcomes(a: RouteResult, b: RouteResult, c: RouteResult): (o: seq<Option<RouteResult>>)
    ensures |o| == 3 && o[0] == Some(a) && o[1] == Some(b) && o[2] == Some(c)
  {
    [Some(a), Some(b), Some(c)]
  }

  /** When every strategy succeeds, the selected route is the first of
      greatest score among them. */
  lemma SelectAmongAll(c: seq<Option<RouteResult>>, places: seq<Place>, options: RouteOptions, show: Show)
    requires |c| == 3 && c[0].Some? && c[1].Some? && c[2].Some?
    ensures IsFirstBest(c, SelectRoute(c, places, options, show), options)
  {
    assert forall j :: 0 <= j < 3 ==> OutcomeScore(c[j], options) == RouteScore(c[j].value, options);
    assert c[0].Some?;
  }

  const NoPlacesError: string := "No places provided for route generation"

  /** `generateOptimalRoute`: an error for no places, the single-place
      route for one, and otherwise the first strategy's route of highest
      score. */
  function GenerateOptimalRoute(dist: Distance, places: seq<Place>, options: RouteOptions, show: Show): (r: Result<RouteResult, string>)
    ensures r.Failure? <==> |places| == 0
    ensures r.Failure? ==> r.error == NoPlacesError
    ensures |places| == 1 ==>
              r.value.orderedPlaces == places && r.value.totalDistance == 0.0 &&
              r.value.estimatedTime == 30 && r.value.routeQuality == Excellent &&
              ParseDirections(r.value.gmapsUrl) ==
                Some(Directions(Token(places[0], show), Token(places[0], show), [], ModeName(options.mode)))
    ensures |places| >= 2 ==> IsFirstBest(Candidates(dist, places, options, show), r.value, options)
    ensures |places| >= 2 ==> ReportsOwnPlaces(r.value, options, show)
  {
    if |places| == 0 then Failure(NoPlacesError)
    else if |places| == 1 then Success(CreateSinglePlaceRoute(places[0], options, show))
    else
      var c := Candidates(dist, places, options, show);
      SelectAmongAll(c, places, options, show);
      Success(SelectRoute(c, places, options, show))
  }

  /** Two bars 1 km apart, as the example below uses them. */
  const BarA: Place := Place("a", "A", "bar", [], "Calle 1", Some(0.0), Some(0.0), "")
  const BarB: Place := Place("b", "B", "bar", [], "Calle 2", Some(0.0), Some(1.0), "")
  const UnitDistance: Distance := (x: Coord, y: Coord) => 1.0
  const ZeroShow: Show := (x: real) => "0"
  const PlainWalk: RouteOptions := RouteOptions(Walking, None, false)

  /** The selected route need not hold every place: two bars 1 km apart
      give a nearest-neighbour and a centroid route of score 118, while no
      bar belongs to a priority category, so the category route is empty,
      scores 120 and is the one returned. */
  lemma OptimalRouteCanBeEmpty()
    ensures var r := GenerateOptimalRoute(UnitDistance, [BarA, BarB], PlainWalk, ZeroShow);
            r.Success? && r.value.orderedPlaces == []
  {
    BarsHaveNoPriority();
    BarsScoreBelowTop();
    EmptyCategoryRouteWins(UnitDistance, [BarA, BarB], PlainWalk, ZeroShow);
  }

  lemma BarsHaveNoPriority()
    ensures FindFirst(CategoryPriority(Walking), HasCategory([BarA, BarB])).None?
  {
    assert "bar" !in CategoryPriority(Walking);
    NoPriorityCategory([BarA, BarB], Walking);
  }

  /** Both routes through the two bars travel 1 km and score below 120. */
  lemma BarsScoreBelowTop()
    ensures RouteScore(NearestNeighborRoute(UnitDistance, [BarA, BarB], PlainWalk, ZeroShow), PlainWalk) < 120.0
    ensures RouteScore(CentroidBasedRoute(UnitDistance, [BarA, BarB], PlainWalk, ZeroShow), PlainWalk) < 120.0
  {
    UnitPairNearest(UnitDistance, [BarA, BarB], PlainWalk, ZeroShow);
    UnitPairCentroid(UnitDistance, [BarA, BarB], PlainWalk, ZeroShow);
    OneKmScore(NearestNeighborRoute(UnitDistance, [BarA, BarB], PlainWalk, ZeroShow), PlainWalk);
    OneKmScore(CentroidBasedRoute(UnitDistance, [BarA, BarB], PlainWalk, ZeroShow), PlainWalk);
  }

  /** With no place in a priority category, the category route starts
      nowhere. */
  lemma NoPriorityCategory(places: seq<Place>, mode: Mode)
    requires forall i :: 0 <= i < |places| ==> places[i].category !in CategoryPriority(mode)
    ensures FindFirst(CategoryPriority(mode), HasCategory(places)).None?
  {
    var cats := CategoryPriority(mode);
    forall k | 0 <= k < |cats| ensures !HasCategory(places)(cats[k]) {
      if |Filter(places, InCategory(cats[k]))| > 0 {
        FilterMember(places, InCategory(cats[k]), Filter(places, InCategory(cats[k]))[0]);
      }
    }
  }

  /** A route of 1 km without options scores less than 120. */
  lemma OneKmScore(route: RouteResult, options: RouteOptions)
    requires route.totalDistance == 1.0 && !options.preferScenicRoute
    ensures RouteScore(route, options) < 120.0
  {
  }

  /** When no place is in a priority category and the other two routes
      score below 120, the empty category route is selected. */
  lemma EmptyCategoryRouteWins(dist: Distance, places: seq<Place>, options: RouteOptions, show: Show)
    requires |places| >= 2 && !options.preferScenicRoute && options.maxDistance.None?
    requires FindFirst(CategoryPriority(options.mode), HasCategory(places)).None?
    requires RouteScore(NearestNeighborRoute(dist, places, options, show), options) < 120.0
    requires RouteScore(CentroidBasedRoute(dist, places, options, show), options) < 120.0
    ensures GenerateOptimalRoute(dist, places, options, show).value.orderedPlaces == []
  {
    var c := Candidates(dist, places, options, show);
    EmptyCategoryRoute(dist, places, options, show);
    OnlyTopScore(c, GenerateOptimalRoute(dist, places, options, show).value, options, 120.0);
  }

  /** With no place in a priority category the category route is empty and
      scores 120. */
  lemma EmptyCategoryRoute(dist: Distance, places: seq<Place>, options: RouteOptions, show: Show)
    requires !options.preferScenicRoute && options.maxDistance.None?
    requires FindFirst(CategoryPriority(options.mode), HasCategory(places)).None?
    ensures CategoryOptimizedRoute(dist, places, options, show).orderedPlaces == []
    ensures RouteScore(CategoryOptimizedRoute(dist, places, options, show), options) == 120.0
  {
    var category := CategoryOptimizedRoute(dist, places, options, show);
    CategoryRouteContents(dist, places, options, show);
    assert category.estimatedTime == EstimateRouteTime(0.0, 0, options.mode);
    ScoreCeiling(category, options);
  }

  /** The first best of three outcomes, when only the last reaches the top
      score, is the last. */
  lemma OnlyTopScore(c: seq<Option<RouteResult>>, r: RouteResult, options: RouteOptions, top: real)
    requires |c| == 3 && c[0].Some? && c[1].Some? && c[2].Some?
    requires RouteScore(c[0].value, options) < top && RouteScore(c[1].value, options) < top
    requires RouteScore(c[2].value, options) == top
    requires IsFirstBest(c, r, options)
    ensures r == c[2].value
  {
    var i :| 0 <= i < |c| && c[i] == Some(r) &&
             (forall j :: 0 <= j < |c| ==> OutcomeScore(c[j], options) <= RouteScore(r, options));
    assert OutcomeScore(c[2], options) == top;
  }

  /** Two places with coordinates and different ids, every distance 1 and
      no scenic preference: the nearest-neighbour route travels exactly 1. */
  lemma UnitPairNearest(dist: Distance, places: seq<Place>, options: RouteOptions, show: Show)
    requires forall x, y :: dist(x, y) == 1.0
    requires !options.preferScenicRoute
    requires |places| == 2 && HasCoords(places[0]) && HasCoords(places[1]) && places[0].id != places[1].id
    ensures NearestNeighborRoute(dist, places, options, show).totalDistance == 1.0
  {
    FilterKeepsAll(places, HasCoords);
    var withCoords := WithCoords(places);
    var start := FindBestStartingPlace(dist, withCoords, options);
    var remaining := Filter(withCoords, IdDiffers(start.id));
    RemoveById(withCoords, start);
    assert |multiset(remaining)| == 1;
    ChainSingle(start, remaining, HopCost(dist, options));
    NearestNeighborParts(dist, places, options, show);
  }

  /** With every distance 1, a route of two places with coordinates
      travels 1. */
  lemma UnitPairCentroid(dist: Distance, places: seq<Place>, options: RouteOptions, show: Show)
    requires forall x, y :: dist(x, y) == 1.0
    requires |places| == 2 && HasCoords(places[0]) && HasCoords(places[1])
    ensures CentroidBasedRoute(dist, places, options, show).totalDistance == 1.0
  {
    CentroidPair(dist, places, options, show);
    UnitLeg(dist, CentroidBasedRoute(dist, places, options, show).orderedPlaces);
  }

  /** The centroid route of two places with coordinates visits both and
      travels the length of its one leg. */
  lemma CentroidPair(dist: Distance, places: seq<Place>, options: RouteOptions, show: Show)
    requires |places| == 2 && HasCoords(places[0]) && HasCoords(places[1])
    ensures var r := CentroidBasedRoute(dist, places, options, show);
            |r.orderedPlaces| == 2 && HasCoords(r.orderedPlaces[0]) && HasCoords(r.orderedPlaces[1]) &&
            r.totalDistance == TotalDistance(dist, r.orderedPlaces)
  {
    FilterKeepsAll(places, HasCoords);
    CentroidRouteShape(dist, places, options, show);
  }

  /** With every distance 1, two places with coordinates are 1 apart. */
  lemma UnitLeg(dist: Distance, r: seq<Place>)
    requires forall x, y :: dist(x, y) == 1.0
    requires |r| == 2 && HasCoords(r[0]) && HasCoords(r[1])
    ensures TotalDistance(dist, r) == 1.0
  {
    assert r[1..] == [r[1]];
  }
}
