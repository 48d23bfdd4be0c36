/** The three orderings `RouteService.generateOptimalRoute` tries: the
    nearest-neighbour walk, the spiral out from the centroid, and the
    category-priority route built by cheapest insertion. */
module Strategies {
  import opened Wrappers
  import opened Seqs
  import opened ArgMin
  import opened Greedy
  import opened StableSort
  import opened Places
  import opened RouteMetrics
  import opened Insertion

  /** `p => calculateDistance(from.lat, from.lng, p.lat!, p.lng!)`. */
  function DistanceFrom(dist: Distance, from: Coord): Place -> real {
    (p: Place) => dist(from, CoordOf(p))
  }

  /** The hop cost of the nearest-neighbour loop: the distance to `b`,
      adjusted for the scenic preference by what `b` is. */
  function HopCost(dist: Distance, options: RouteOptions): (Place, Place) -> real {
    (a: Place, b: Place) => AdjustDistance(dist(CoordOf(a), CoordOf(b)), b, options)
  }

  /** The first scenic place, when there is one, is what the filter puts
      first. */
  lemma FirstScenic(places: seq<Place>)
    ensures |Filter(places, IsScenic)| > 0 <==> FindFirst(places, IsScenic).Some?
    ensures FindFirst(places, IsScenic).Some? ==>
              Filter(places, IsScenic)[0] == places[FindFirst(places, IsScenic).value]
  {
    match FindFirst(places, IsScenic)
    case Some(i) => FilterFirst(places, IsScenic, i);
    case None =>
      if |Filter(places, IsScenic)| > 0 {
        FilterMember(places, IsScenic, Filter(places, IsScenic)[0]);
        assert false;
      }
  }

  /** `findBestStartingPlace`: with the scenic option, the first park or
      walkway; otherwise the place nearest the centroid, the earliest one on
      ties, since the `reduce` only replaces its pick by a strictly nearer
      place. A place without coordinates is measured as if at (0, 0). */
  function FindBestStartingPlace(dist: Distance, places: seq<Place>, options: RouteOptions): (p: Place)
    requires |places| > 0
    ensures p in places
    ensures options.preferScenicRoute && (exists i :: 0 <= i < |places| && IsScenic(places[i])) ==>
              IsScenic(p) && exists i :: 0 <= i < |places| && places[i] == p &&
                                        forall j :: 0 <= j < i ==> !IsScenic(places[j])
    ensures !(options.preferScenicRoute && exists i :: 0 <= i < |places| && IsScenic(places[i])) ==>
              var key := DistanceFrom(dist, Centroid(places));
              (forall j :: 0 <= j < |places| ==> key(p) <= key(places[j])) &&
              exists i :: 0 <= i < |places| && places[i] == p && forall j :: 0 <= j < i ==> key(p) < key(places[j])
  {
    var scenicPlaces := Filter(places, IsScenic);
    FirstScenic(places);
    if options.preferScenicRoute && |scenicPlaces| > 0 then scenicPlaces[0]
    else places[FirstMinIndex(places, DistanceFrom(dist, Centroid(places)))]
  }

  /** `nearestNeighborRoute`: with no place to measure, the address route;
      otherwise the greedy walk by adjusted distance from the starting place
      through the other places with coordinates, with the places without
      coordinates spliced in after it. The reported distance is the sum of
      the adjusted hops the walk took. */
  function NearestNeighborRoute(dist: Distance, places: seq<Place>, options: RouteOptions, show: Show): (r: RouteResult)
    ensures |WithCoords(places)| == 0 ==>
              r.orderedPlaces == places && r.totalDistance == 0.0 &&
              r.estimatedTime == 45 * |places| && r.routeQuality == Fair
    ensures |WithCoords(places)| > 0 ==>
              |r.orderedPlaces| > 0 && r.orderedPlaces[0] == FindBestStartingPlace(dist, WithCoords(places), options)
    ensures ReportsOwnPlaces(r, options, show)
  {
    var withCoords := WithCoords(places);
    var withoutCoords := WithoutCoords(places);
    if |withCoords| == 0 then AddressBasedRoute(places, options, show)
    else
      var start := FindBestStartingPlace(dist, withCoords, options);
      var walk := Chain(start, Filter(withCoords, IdDiffers(start.id)), HopCost(dist, options));
      CreateRouteResult(InsertPlacesWithoutCoords([start] + walk.stops, withoutCoords), walk.length, options, show)
  }

  /** The coordinate part of the nearest-neighbour route: the starting place
      followed by the greedy walk from it. */
  function NearestNeighborPath(dist: Distance, places: seq<Place>, options: RouteOptions): (path: seq<Place>)
    requires |WithCoords(places)| > 0
    ensures |path| > 0
  {
    var withCoords := WithCoords(places);
    var start := FindBestStartingPlace(dist, withCoords, options);
    [start] + Chain(start, Filter(withCoords, IdDiffers(start.id)), HopCost(dist, options)).stops
  }

  /** The nearest-neighbour route with coordinates, spelled out: its places
      are the walk with the others spliced in, its distance the walk's
      length. */
  lemma NearestNeighborParts(dist: Distance, places: seq<Place>, options: RouteOptions, show: Show)
    requires |WithCoords(places)| > 0
    ensures var r := NearestNeighborRoute(dist, places, options, show);
            var withCoords := WithCoords(places);
            var start := FindBestStartingPlace(dist, withCoords, options);
            var walk := Chain(start, Filter(withCoords, IdDiffers(start.id)), HopCost(dist, options));
            r.orderedPlaces == InsertPlacesWithoutCoords([start] + walk.stops, WithoutCoords(places)) &&
            r.totalDistance == walk.length
  {
  }

  /** With unique ids the nearest-neighbour route visits every place exactly
      once. */
  lemma NearestNeighborPermutation(dist: Distance, places: seq<Place>, options: RouteOptions, show: Show)
    requires UniqueIds(places)
    ensures multiset(NearestNeighborRoute(dist, places, options, show).orderedPlaces) == multiset(places)
  {
    var withCoords := WithCoords(places);
    CoordsPartition(places);
    if |withCoords| > 0 {
      var start := FindBestStartingPlace(dist, withCoords, options);
      FilterUniqueIds(places, HasCoords);
      RemoveById(withCoords, start);
    }
  }

  /** The places with coordinates appear in the order of the greedy walk,
      every hop of which is a cheapest one by adjusted distance, and the
      reported distance is what those hops cost. */
  lemma NearestNeighborGreedy(dist: Distance, places: seq<Place>, options: RouteOptions, show: Show)
    requires |WithCoords(places)| > 0
    ensures var r := NearestNeighborRoute(dist, places, options, show);
            var path := NearestNeighborPath(dist, places, options);
            Filter(r.orderedPlaces, HasCoords) == path &&
            IsGreedy(path, HopCost(dist, options)) &&
            path[0] == FindBestStartingPlace(dist, WithCoords(places), options) &&
            TakesFirstCheapest(path[0], Filter(WithCoords(places), IdDiffers(path[0].id)), path[1..], HopCost(dist, options)) &&
            r.totalDistance == PathCost(path, HopCost(dist, options))
  {
    var withCoords := WithCoords(places);
    var start := FindBestStartingPlace(dist, withCoords, options);
    var remaining := Filter(withCoords, IdDiffers(start.id));
    var path := NearestNeighborPath(dist, places, options);
    NearestNeighborParts(dist, places, options, show);
    ChainLength(start, remaining, HopCost(dist, options));
    ChainIsGreedy(start, remaining, HopCost(dist, options));
    assert path[1..] == Chain(start, remaining, HopCost(dist, options)).stops;
    ChainTakesFirstCheapest(start, remaining, path[1..], HopCost(dist, options));
    PathHasCoords(places, path, start, remaining, HopCost(dist, options));
    FilterKeepsAll(path, HasCoords);
    var without := WithoutCoords(places);
    forall i | 0 <= i < |without| ensures LacksCoords(without[i]) {
      FilterMember(places, LacksCoords, without[i]);
    }
    InsertedLackCoords(path, without);
  }

  /** Every place on the walk has coordinates. */
  lemma PathHasCoords(places: seq<Place>, path: seq<Place>, start: Place, remaining: seq<Place>, cost: (Place, Place) -> real)
    requires start in WithCoords(places)
    requires remaining == Filter(WithCoords(places), IdDiffers(start.id))
    requires path == [start] + Chain(start, remaining, cost).stops
    ensures forall i :: 0 <= i < |path| ==> HasCoords(path[i])
  {
    var withCoords := WithCoords(places);
    FilterMembers(places, HasCoords);
    FilterMembers(withCoords, IdDiffers(start.id));
    forall i | 0 <= i < |path| ensures HasCoords(path[i]) {
      if i > 0 {
        assert path[i] in multiset(Chain(start, remaining, cost).stops);
      }
    }
  }

  /** Splicing in places without coordinates leaves the order of the places
      with coordinates as it was. */
  lemma {:induction false} InsertedLackCoords(ordered: seq<Place>, without: seq<Place>)
    requires forall i :: 0 <= i < |without| ==> LacksCoords(without[i])
    ensures Filter(InsertPlacesWithoutCoords(ordered, without), HasCoords) == Filter(ordered, HasCoords)
    decreases |without|
  {
    if |without| > 0 {
      var p := without[0];
      var i := FindLogicalInsertPosition(ordered, p);
      FilterInsertAt(ordered, i, p, HasCoords);
      InsertedLackCoords(InsertAt(ordered, i, p), without[1..]);
    }
  }

  /** Without the scenic option the reported distance of the
      nearest-neighbour route is the total distance of its coordinate part. */
  lemma NearestNeighborPlainDistance(dist: Distance, places: seq<Place>, options: RouteOptions, show: Show)
    requires |WithCoords(places)| > 0 && !options.preferScenicRoute
    ensures NearestNeighborRoute(dist, places, options, show).totalDistance ==
            TotalDistance(dist, NearestNeighborPath(dist, places, options))
  {
    var withCoords := WithCoords(places);
    var start := FindBestStartingPlace(dist, withCoords, options);
    var remaining := Filter(withCoords, IdDiffers(start.id));
    var path := NearestNeighborPath(dist, places, options);
    NearestNeighborGreedy(dist, places, options, show);
    PathHasCoords(places, path, start, remaining, HopCost(dist, options));
    PlainPathCost(dist, path, options);
  }

  /** Between places with coordinates and without the scenic adjustment,
      the hop costs add up to the total distance. */
  lemma {:induction false} PlainPathCost(dist: Distance, path: seq<Place>, options: RouteOptions)
    requires !options.preferScenicRoute
    requires forall i :: 0 <= i < |path| ==> HasCoords(path[i])
    ensures PathCost(path, HopCost(dist, options)) == TotalDistance(dist, path)
    decreases |path|
  {
    if |path| >= 2 {
      PlainPathCost(dist, path[1..], options);
    }
  }

  /** The spiral's hop cost: the score `1 / (distance + 0.1)` negated, so
      that the first greatest score is the first least cost. The source's
      scan starts from a best score of -1, below every score, so index 0
      always takes the lead first, as in `FirstMinIndex`. */
  function SpiralCost(dist: Distance): (Place, Place) -> real {
    (a: Place, b: Place) => -(1.0 / (dist(CoordOf(a), CoordOf(b)) + 0.1))
  }

  /** `createSpiralRoute`: lists of up to two places are kept; longer ones
      start at their first place and follow the best-scoring hop. */
  function CreateSpiralRoute(dist: Distance, places: seq<Place>): (r: seq<Place>)
    ensures multiset(r) == multiset(places)
    ensures |places| > 0 ==> |r| > 0 && r[0] == places[0]
  {
    if |places| <= 2 then places
    else
      assert places == [places[0]] + places[1..];
      [places[0]] + Chain(places[0], places[1..], SpiralCost(dist)).stops
  }

  /** A larger positive number has a smaller reciprocal. */
  lemma ReciprocalOrder(a: real, b: real)
    requires a > 0.0 && b > 0.0
    ensures 1.0 / a > 1.0 / b <==> a < b
  {
    assert 1.0 / a - 1.0 / b == (b - a) / (a * b);
  }

  /** Ranking by score is ranking by distance: the spiral is the
      nearest-neighbour walk from the first place by plain distance. */
  lemma SpiralIsNearest(dist: Distance, places: seq<Place>)
    requires |places| > 0
    ensures CreateSpiralRoute(dist, places) == [places[0]] + Chain(places[0], places[1..], RawHop(dist)).stops
  {
    if |places| <= 2 {
      assert places == [places[0]] + places[1..];
      if |places| == 2 {
        assert FirstMinIndex(places[1..], CostFrom(RawHop(dist), places[0])) == 0;
        assert RemoveAt(places[1..], 0) == [];
      }
    } else {
      forall a: Place, x: Place, y: Place
        ensures SpiralCost(dist)(a, x) < SpiralCost(dist)(a, y) <==> RawHop(dist)(a, x) < RawHop(dist)(a, y)
      {
        ReciprocalOrder(dist(CoordOf(a), CoordOf(x)) + 0.1, dist(CoordOf(a), CoordOf(y)) + 0.1);
      }
      ChainSameOrder(places[0], places[1..], SpiralCost(dist), RawHop(dist));
    }
  }

  /** `centroidBasedRoute`: with fewer than two places with coordinates,
      the nearest-neighbour route; otherwise the places with coordinates
      sorted by distance from their centroid (a stable sort) and laid out
      as a spiral from the nearest. Places without coordinates are left
      out. */
  function CentroidBasedRoute(dist: Distance, places: seq<Place>, options: RouteOptions, show: Show): (r: RouteResult)
    ensures |WithCoords(places)| < 2 ==> r == NearestNeighborRoute(dist, places, options, show)
    ensures |WithCoords(places)| >= 2 ==>
              multiset(r.orderedPlaces) == multiset(WithCoords(places)) &&
              r.totalDistance == TotalDistance(dist, r.orderedPlaces)
    ensures ReportsOwnPlaces(r, options, show)
  {
    var withCoords := WithCoords(places);
    if |withCoords| < 2 then NearestNeighborRoute(dist, places, options, show)
    else
      var sorted := SortBy(withCoords, DistanceFrom(dist, Centroid(withCoords)));
      var ordered := CreateSpiralRoute(dist, sorted);
      CreateRouteResult(ordered, TotalDistance(dist, ordered), options, show)
  }

  /** The centroid route starts at the first place nearest the centroid,
      moves greedily by plain distance, and holds only places with
      coordinates: every place without coordinates is dropped. */
  lemma CentroidRouteShape(dist: Distance, places: seq<Place>, options: RouteOptions, show: Show)
    requires |WithCoords(places)| >= 2
    ensures var withCoords := WithCoords(places);
            var r := CentroidBasedRoute(dist, places, options, show).orderedPlaces;
            |r| == |withCoords| &&
            r[0] == withCoords[FirstMinIndex(withCoords, DistanceFrom(dist, Centroid(withCoords)))] &&
            IsGreedy(r, RawHop(dist)) &&
            TakesFirstCheapest(r[0], SortBy(withCoords, DistanceFrom(dist, Centroid(withCoords)))[1..], r[1..], RawHop(dist)) &&
            (forall i :: 0 <= i < |r| ==> HasCoords(r[i])) &&
            |r| + |WithoutCoords(places)| == |places|
  {
    var withCoords := WithCoords(places);
    var key := DistanceFrom(dist, Centroid(withCoords));
    var sorted := SortBy(withCoords, key);
    var r := CreateSpiralRoute(dist, sorted);
    HeadIsFirstMin(withCoords, key);
    SpiralIsNearest(dist, sorted);
    ChainIsGreedy(sorted[0], sorted[1..], RawHop(dist));
    assert r[1..] == Chain(sorted[0], sorted[1..], RawHop(dist)).stops;
    ChainTakesFirstCheapest(sorted[0], sorted[1..], r[1..], RawHop(dist));
    FilterMembers(places, HasCoords);
    forall i | 0 <= i < |r| ensures HasCoords(r[i]) {
      assert r[i] in multiset(withCoords);
    }
    CoordsPartition(places);
    assert |multiset(r)| == |r| && |multiset(places)| == |places|;
  }

  /** The category order of `categoryOptimizedRoute` for each mode. */
  function CategoryPriority(mode: Mode): (cats: seq<string>)
    ensures |cats| == 8
    ensures forall i, j :: 0 <= i < j < |cats| ==> cats[i] != cats[j]
  {
    match mode
    case Walking => ["park", "walkway", "cafe", "cafe-bakery", "museum", "landmark", "district", "zoo"]
    case Driving => ["museum", "landmark", "district", "park", "zoo", "cafe", "cafe-bakery", "walkway"]
  }

  /** `p => !ordered.includes(p)`. */
  function NotIn(ordered: seq<Place>): Place -> bool {
    (p: Place) => p !in ordered
  }

  /** `c => categorizedPlaces.get(c)` is not empty. */
  function HasCategory(places: seq<Place>): string -> bool {
    (c: string) => |Filter(places, InCategory(c))| > 0
  }

  /** The `for (const place of remaining)` loop: each place in turn goes to
      the cheapest position of the growing route. */
  function InsertEach(dist: Distance, ordered: seq<Place>, places: seq<Place>): (r: seq<Place>)
    ensures multiset(r) == multiset(ordered) + multiset(places)
    decreases |places|
  {
    if |places| == 0 then ordered
    else
      var p := places[0];
      assert places == [p] + places[1..];
      InsertEach(dist, InsertAt(ordered, FindBestInsertPosition(dist, ordered, p), p), places[1..])
  }

  /** The `for (const category of categoryPriority)` loop from the route
      built so far: the first non-empty category contributes only its
      starting place, each later one all of its places not yet on the
      route. */
  function CategoryFold(dist: Distance, places: seq<Place>, cats: seq<string>, ordered: seq<Place>, options: RouteOptions): (r: seq<Place>)
    ensures forall x :: x in r ==> x in ordered || x in places
    decreases |cats|
  {
    if |cats| == 0 then ordered
    else
      var group := Filter(places, InCategory(cats[0]));
      FilterMembers(places, InCategory(cats[0]));
      var next :=
        if |group| == 0 then ordered
        else if |ordered| == 0 then [FindBestStartingPlace(dist, group, options)]
        else (
          var remaining := Filter(group, NotIn(ordered));
          FilterMembers(group, NotIn(ordered));
          var grown := InsertEach(dist, ordered, remaining);
          assert forall x :: x in grown ==> x in multiset(ordered) + multiset(remaining);
          grown);
      CategoryFold(dist, places, cats[1..], next, options)
  }

  /** `categoryOptimizedRoute`. */
  function CategoryOptimizedRoute(dist: Distance, places: seq<Place>, options: RouteOptions, show: Show): (r: RouteResult)
    ensures r.totalDistance == TotalDistance(dist, r.orderedPlaces)
    ensures forall x :: x in r.orderedPlaces ==> x in places
    ensures ReportsOwnPlaces(r, options, show)
  {
    var ordered := CategoryFold(dist, places, CategoryPriority(options.mode), [], options);
    CreateRouteResult(ordered, TotalDistance(dist, ordered), options, show)
  }

  /** The places of the given categories, category by category. */
  function Groups(places: seq<Place>, cats: seq<string>): seq<Place>
    decreases |cats|
  {
    if |cats| == 0 then [] else Filter(places, InCategory(cats[0])) + Groups(places, cats[1..])
  }

  /** Each place appears in the groups of distinct categories as often as
      in the input when its category is one of them, and not at all
      otherwise. */
  lemma {:induction false} GroupsCount(places: seq<Place>, cats: seq<string>, x: Place)
    requires forall i, j :: 0 <= i < j < |cats| ==> cats[i] != cats[j]
    ensures multiset(Groups(places, cats))[x] == if x.category in cats then multiset(places)[x] else 0
    decreases |cats|
  {
    if |cats| > 0 {
      FilterCount(places, InCategory(cats[0]), x);
      GroupsCount(places, cats[1..], x);
      assert x.category in cats <==> x.category == cats[0] || x.category in cats[1..];
    }
  }

  /** Once the route is started, every later category adds all of its
      places, as none of them can already be on the route. */
  lemma {:induction false} CategoryFoldGrows(dist: Distance, places: seq<Place>, cats: seq<string>, ordered: seq<Place>, options: RouteOptions)
    requires |ordered| > 0
    requires forall i, j :: 0 <= i < j < |cats| ==> cats[i] != cats[j]
    requires forall x :: x in ordered ==> x.category !in cats
    ensures multiset(CategoryFold(dist, places, cats, ordered, options)) == multiset(ordered) + multiset(Groups(places, cats))
    decreases |cats|
  {
    if |cats| > 0 {
      var group := Filter(places, InCategory(cats[0]));
      GroupNotOnRoute(places, cats[0], ordered);
      var next := if |group| == 0 then ordered else InsertEach(dist, ordered, group);
      GrownAvoids(places, cats, ordered, next);
      CategoryFoldGrows(dist, places, cats[1..], next, options);
    }
  }

  /** No place of a category is on a route that holds none of that
      category. */
  lemma GroupNotOnRoute(places: seq<Place>, cat: string, ordered: seq<Place>)
    requires forall x :: x in ordered ==> x.category != cat
    ensures Filter(Filter(places, InCategory(cat)), NotIn(ordered)) == Filter(places, InCategory(cat))
  {
    var group := Filter(places, InCategory(cat));
    forall i | 0 <= i < |group| ensures NotIn(ordered)(group[i]) {
      FilterMember(places, InCategory(cat), group[i]);
    }
    FilterKeepsAll(group, NotIn(ordered));
  }

  /** Adding the places of the first category keeps the route clear of the
      categories after it. */
  lemma GrownAvoids(places: seq<Place>, cats: seq<string>, ordered: seq<Place>, next: seq<Place>)
    requires |cats| > 0
    requires forall i, j :: 0 <= i < j < |cats| ==> cats[i] != cats[j]
    requires forall x :: x in ordered ==> x.category !in cats
    requires multiset(next) == multiset(ordered) + multiset(Filter(places, InCategory(cats[0])))
    ensures forall x :: x in next ==> x.category !in cats[1..]
  {
    forall x | x in next ensures x.category !in cats[1..] {
      assert x in multiset(next);
      if x !in ordered {
        FilterMember(places, InCategory(cats[0]), x);
      }
    }
  }

  /** Before the route is started, categories without places are skipped,
      so a list with none leaves the route empty... */
  lemma {:induction false} FoldAllEmpty(dist: Distance, places: seq<Place>, cats: seq<string>, options: RouteOptions)
    requires forall j :: 0 <= j < |cats| ==> !HasCategory(places)(cats[j])
    ensures CategoryFold(dist, places, cats, [], options) == []
    decreases |cats|
  {
    if |cats| > 0 {
      FoldSkipsEmpty(dist, places, cats, options);
      FoldAllEmpty(dist, places, cats[1..], options);
    }
  }

  /** ... and the first category with places contributes its starting
      place. */
  lemma {:induction false} FoldStartsAt(dist: Distance, places: seq<Place>, cats: seq<string>, k: nat, options: RouteOptions)
    requires k < |cats| && HasCategory(places)(cats[k])
    requires forall j :: 0 <= j < k ==> !HasCategory(places)(cats[j])
    ensures CategoryFold(dist, places, cats, [], options) ==
            CategoryFold(dist, places, cats[k + 1..], [FindBestStartingPlace(dist, Filter(places, InCategory(cats[k])), options)], options)
    decreases k
  {
    if k > 0 {
      FoldSkipsEmpty(dist, places, cats, options);
      FoldStartsAt(dist, places, cats[1..], k - 1, options);
      assert cats[1..][k..] == cats[k + 1..] && cats[1..][k - 1] == cats[k];
    }
  }

  /** Before the route is started, a category without places changes
      nothing. */
  lemma FoldSkipsEmpty(dist: Distance, places: seq<Place>, cats: seq<string>, options: RouteOptions)
    requires |cats| > 0 && !HasCategory(places)(cats[0])
    ensures CategoryFold(dist, places, cats, [], options) == CategoryFold(dist, places, cats[1..], [], options)
  {
  }

  /** What the category route holds for the category order `cats`: the
      starting place of the first category with places followed by every
      place of the later categories, or nothing when no category has
      places; never a place more often than the input holds it. */
  ghost predicate CategoryShape(r: seq<Place>, dist: Distance, places: seq<Place>, cats: seq<string>, options: RouteOptions) {
    (FindFirst(cats, HasCategory(places)).None? ==> r == []) &&
    (FindFirst(cats, HasCategory(places)).Some? ==>
       var k := FindFirst(cats, HasCategory(places)).value;
       multiset(r) == multiset{FindBestStartingPlace(dist, Filter(places, InCategory(cats[k])), options)} +
                      multiset(Groups(places, cats[k + 1..]))) &&
    multiset(r) <= multiset(places)
  }

  /** The category route is the starting place of the first priority
      category with places followed by every place of the later priority
      categories, or empty when no place has a priority category; places of
      other categories, and the rest of the first category, are dropped.
      It never holds a place more often than the input does. */
  lemma CategoryRouteContents(dist: Distance, places: seq<Place>, options: RouteOptions, show: Show)
    ensures CategoryShape(CategoryOptimizedRoute(dist, places, options, show).orderedPlaces,
                          dist, places, CategoryPriority(options.mode), options)
  {
    var cats := CategoryPriority(options.mode);
    CategoryFoldContents(dist, places, cats, options);
  }

  /** `CategoryRouteContents` for any list of distinct categories. */
  lemma CategoryFoldContents(dist: Distance, places: seq<Place>, cats: seq<string>, options: RouteOptions)
    requires forall i, j :: 0 <= i < j < |cats| ==> cats[i] != cats[j]
    ensures CategoryShape(CategoryFold(dist, places, cats, [], options), dist, places, cats, options)
  {
    match FindFirst(cats, HasCategory(places))
    case None =>
      FoldAllEmpty(dist, places, cats, options);
    case Some(k) =>
      FoldStartsAt(dist, places, cats, k, options);
      StartedRoute(dist, places, cats, k, options);
  }

  /** From the starting place of category `k` on, the route gains every
      place of the later categories and nothing else. */
  lemma StartedRoute(dist: Distance, places: seq<Place>, cats: seq<string>, k: nat, options: RouteOptions)
    requires k < |cats| && |Filter(places, InCategory(cats[k]))| > 0
    requires forall i, j :: 0 <= i < j < |cats| ==> cats[i] != cats[j]
    ensures var start := FindBestStartingPlace(dist, Filter(places, InCategory(cats[k])), options);
            var r := CategoryFold(dist, places, cats[k + 1..], [start], options);
            multiset(r) == multiset{start} + multiset(Groups(places, cats[k + 1..])) &&
            multiset(r) <= multiset(places)
  {
    var group := Filter(places, InCategory(cats[k]));
    var start := FindBestStartingPlace(dist, group, options);
    var later := cats[k + 1..];
    FilterMember(places, InCategory(cats[k]), start);
    assert start.category !in later;
    CategoryFoldGrows(dist, places, later, [start], options);
    StartPlusGroups(places, later, start);
  }

  /** A member whose category is not among `cats`, together with the
      groups of `cats`, is part of the input. */
  lemma StartPlusGroups(places: seq<Place>, cats: seq<string>, start: Place)
    requires start in places && start.category !in cats
    requires forall i, j :: 0 <= i < j < |cats| ==> cats[i] != cats[j]
    ensures multiset{start} + multiset(Groups(places, cats)) <= multiset(places)
  {
    forall x ensures (multiset{start} + multiset(Groups(places, cats)))[x] <= multiset(places)[x] {
      GroupsCount(places, cats, x);
    }
  }
}
