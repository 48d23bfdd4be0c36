# Your City Vibes — route engine and helpers in Dafny

This project models the planning core of Your City Vibes, a city-itinerary
planner. Given a list of places (a name, a category, vibes, an address and
optional coordinates), `RouteService.generateOptimalRoute` tries three
orderings:

- a nearest-neighbour walk;
- a spiral out from the centroid;
- a category-priority route built by cheapest insertion.

It scores each ordering and keeps the first one with the strictly highest
score. It also estimates time and quality, and writes a Google Maps
directions link.

Around the engine sit the pure helpers the pages use:

- input normalisation and validation;
- suggestion chips and their filtering;
- the presenter that turns a plan into cards;
- the live preview's keyword scoring;
- the image-query cleaner.

Everything is modelled as pure functions over immutable sequences.

Two host functions enter as parameters:

- `dist: Distance`: great-circle distance, which the source computes with
  Haversine. It returns a non-negative real.
- `show: Show`: JavaScript's number-to-string conversion. It returns a
  string of digits, signs, `.` and `e`.

Dataset lookups (`DATASET`, `CITY_ALIASES`) are passed in as values.

Modules, following the source files:

| module | models |
|---|---|
| `Places`, `RouteMetrics`, `Insertion`, `Strategies`, `RouteService` | lib/route-service.ts |
| `Utils`, `MapsUrl` | lib/utils-ycv.ts |
| `Validation` | lib/validation.ts |
| `Suggestions` | lib/suggestion-service.ts |
| `UiPresenter` | lib/ui-presenter.ts |
| `Preview` | lib/preview-service.ts |
| `ImageUtils` | lib/image-utils.ts |
| `Text`, `Uri` | the JavaScript string primitives the source calls (`trim`, ASCII `toLowerCase`, `includes`, `split`, `join`, `encodeURIComponent`) |
| `Seqs`, `ArgMin`, `Greedy`, `BestOf`, `StableSort` | the list idioms the source repeats (filter, the first-strict-minimum scan, the greedy walk, the keep-the-best loop, the stable `Array.prototype.sort`) |

Two behaviours of the code differ from what one might expect of a route
planner:

- **Routes need not be permutations.** One might expect every route to
  hold each input place exactly once. In the code that holds for these
  routes only:
  - the nearest-neighbour route, when ids are unique;
  - the fallback route;
  - `orderPlacesByProximity`.

  It fails for the other two strategies:
  - The centroid route drops every place without coordinates.
  - The category route keeps one place of the first non-empty priority
    category, and drops every place of other categories.

  Because an empty route scores 120, `generateOptimalRoute` can return it.
  `RouteService.OptimalRouteCanBeEmpty` proves that on two bars 1 km
  apart.
- **The nearest-neighbour distance is not always the plain distance.** One
  might expect `totalDistance` to be the sum of consecutive distances.
  With the scenic option, the nearest-neighbour route instead reports the
  sum of the scenic-adjusted hops (parks and walkways ×0.8).

## Model

| member | source | states |
|---|---|---|
| RouteService.GenerateOptimalRoute | lib/route-service.ts:20-54 | No places is the "No places provided" error. One place gives the single-place route: that place, distance 0, 30 minutes, excellent, and a link that reads back with that place as both origin and destination, no waypoints, and the mode's name. Otherwise the result is the first of nearest-neighbour, centroid and category routes (in that order) whose score is the highest. Its link is the directions link of its own places. Its time and quality are the estimate and rating of its own distance and places, or 45 minutes per place and fair for the address route. |
| RouteService.SelectRoute | lib/route-service.ts:36-53 | The fallback route is returned exactly when every strategy failed. Otherwise the result is an outcome no other outcome outscores, and every earlier outcome scores strictly less. |
| RouteService.BestRouteIsFirstMax | lib/route-service.ts:36-51 | The keep-the-best loop over route outcomes ends on the first outcome of greatest score. It ends with nothing only when every strategy failed. |
| RouteService.SelectAmongAll | lib/route-service.ts:30-53 | When all three strategies succeed, the returned route is the first of greatest score among them. |
| RouteService.OptimalRouteCanBeEmpty | lib/route-service.ts:125-164 | Two bars 1 km apart, walking, no options: the selected route holds no place at all, so the result is not a permutation of the input. |
| RouteService.EmptyCategoryRouteWins | lib/route-service.ts:36-53 | With no place in a priority category, and the other two routes scoring below 120, the empty category route is the one returned. |
| RouteService.EmptyCategoryRoute | lib/route-service.ts:145-163 | With no place in a priority category, the category route is empty and scores 120. |
| RouteService.OnlyTopScore | lib/route-service.ts:44-47 | Among three outcomes where only the last reaches the top score, the first best is the last. |
| RouteService.NoPriorityCategory | lib/route-service.ts:145-147 | When no place is in a priority category of the mode, no priority category has a place to start from. |
| RouteService.UnitPairNearest | lib/route-service.ts:72-92 | Two places with coordinates and distinct ids, every distance 1: the nearest-neighbour route travels 1. |
| RouteService.UnitPairCentroid | lib/route-service.ts:100-123 | Two places with coordinates, every distance 1: the centroid route travels 1. |
| RouteService.CentroidPair | lib/route-service.ts:100-123 | The centroid route of two places with coordinates holds two places with coordinates, and reports their total distance. |
| RouteService.BarsScoreBelowTop | lib/route-service.ts:346-370 | Both the nearest-neighbour and the centroid route through the two bars score below 120. |
| RouteService.OneKmScore | lib/route-service.ts:346-370 | A 1 km route without the scenic option scores below 120. |
| BestOf.PickBestIsFirstMax | lib/route-service.ts:36-51 | For non-negative scores, the loop started at best score -1 keeps the first outcome of greatest score. A failed outcome scores -1, so the result is none exactly when every outcome failed. |
| BestOf.ScanAgrees | lib/route-service.ts:39-51 | When the running best is the first greatest of a prefix, finishing the loop yields the first greatest outcome overall. |
| BestOf.PickBestStart | lib/route-service.ts:36-47 | The first outcome always becomes the running best, since any score beats the initial -1. |
| BestOf.StepReplaces | lib/route-service.ts:44-47 | An outcome with a strictly higher score replaces the running best. |
| BestOf.StepKeeps | lib/route-service.ts:44 | An outcome that does not score strictly higher leaves the running best unchanged. |
| BestOf.AllFailed | lib/route-service.ts:37 | If a failed outcome is a greatest one, every outcome failed. |
| BestOf.LoopEnd | lib/route-service.ts:39-51 | An outcome of greatest score, strictly above every earlier one, is the first maximum. |
| Strategies.NearestNeighborRoute | lib/route-service.ts:56-98 | With no place with coordinates, the input unchanged with distance 0, 45 minutes per place and fair. Otherwise the route starts at `findBestStartingPlace` of the places with coordinates. Its time, quality and link are those of its own places and distance. |
| Strategies.NearestNeighborPath | lib/route-service.ts:66-92 | The walk over places with coordinates, from the starting place on, is never empty. |
| Strategies.NearestNeighborParts | lib/route-service.ts:65-97 | The route is the start followed by the greedy walk over the other places with coordinates, with the places without coordinates spliced in. Its distance is the walk's length. |
| Strategies.NearestNeighborPermutation | lib/route-service.ts:56-98 | With unique ids, the nearest-neighbour route holds every input place exactly as often as the input does. |
| Strategies.NearestNeighborGreedy | lib/route-service.ts:72-92 | The places with coordinates appear in walk order, starting at `findBestStartingPlace`. Each hop goes to a remaining place of least adjusted distance, the earliest in the remaining list on ties. The reported distance is the sum of those adjusted hops. |
| Strategies.NearestNeighborPlainDistance | lib/route-service.ts:80-90 | Without the scenic option, the reported distance is the plain total distance of the walk. |
| Strategies.PlainPathCost | lib/route-service.ts:184-195 | Between places with coordinates, and without the scenic option, the adjusted hop costs add up to the total distance. |
| Strategies.InsertedLackCoords | lib/route-service.ts:292-305 | Splicing in places without coordinates leaves the order of the places with coordinates unchanged. |
| Strategies.PathHasCoords | lib/route-service.ts:57-67 | Every place on the walk has coordinates. |
| Strategies.FindBestStartingPlace | lib/route-service.ts:166-182 | Result is a member of the list. With the scenic option and a park or walkway present, it is the first park or walkway. Otherwise it is a place of least distance to the centroid, strictly nearer than every earlier place (the first on ties). |
| Strategies.FirstScenic | lib/route-service.ts:169-171 | The scenic filter is non-empty exactly when there is a scenic place, and its head is the first one. |
| Strategies.CreateSpiralRoute | lib/route-service.ts:218-248 | The spiral holds the same places as its input and starts at the first one. |
| Strategies.SpiralIsNearest | lib/route-service.ts:224-245 | Choosing the highest score 1/(d+0.1) is choosing the smallest distance, so the spiral is the greedy nearest walk by plain distance from the first place. |
| Strategies.ReciprocalOrder | lib/route-service.ts:235 | For positive reals, a larger reciprocal means a smaller number. |
| Strategies.CentroidBasedRoute | lib/route-service.ts:100-123 | Fewer than two places with coordinates: the nearest-neighbour route. Otherwise exactly the places with coordinates, with their total distance. Its time, quality and link are those of its own places and distance. |
| Strategies.CentroidRouteShape | lib/route-service.ts:101-122 | The centroid route starts at the first place nearest the centroid. From there each hop goes to a remaining place of least plain distance, the earliest in the sorted remaining list on ties. It holds only places with coordinates. It is shorter than the input by the number of places without coordinates. |
| Strategies.CategoryPriority | lib/route-service.ts:127-130 | Each mode has eight distinct priority categories. |
| Strategies.InsertEach | lib/route-service.ts:154-158 | Inserting places one at a time adds exactly those places. |
| Strategies.CategoryFold | lib/route-service.ts:145-160 | The route draws only on the route so far and the input places. |
| Strategies.CategoryOptimizedRoute | lib/route-service.ts:125-164 | The reported distance is the route's total distance, and every place on it is an input place. Its time, quality and link are those of its own places and distance. |
| Strategies.CategoryRouteContents | lib/route-service.ts:125-164 | The route is empty when no place has a priority category. Otherwise it is the start of the first non-empty priority category plus every place of the later priority categories, never holding a place more often than the input. |
| Strategies.CategoryFoldContents | lib/route-service.ts:145-160 | The same for any list of distinct categories. |
| Strategies.StartedRoute | lib/route-service.ts:149-158 | From the start of category k on, the route gains exactly the places of the later categories. |
| Strategies.CategoryFoldGrows | lib/route-service.ts:152-158 | Once the route has begun, each later category adds all of its places. |
| Strategies.GroupsCount | lib/route-service.ts:132-139 | Grouping by distinct categories keeps each place of a listed category as often as the input has it, and no other place. |
| Strategies.GroupNotOnRoute | lib/route-service.ts:154 | `!ordered.includes(p)` filters nothing when the route holds no place of that category. |
| Strategies.GrownAvoids | lib/route-service.ts:152-158 | After adding a category's places, the route still holds no place of the later categories. |
| Strategies.FoldAllEmpty | lib/route-service.ts:145-147 | Before the route starts, empty categories are skipped, so all-empty categories give an empty route. |
| Strategies.FoldStartsAt | lib/route-service.ts:145-151 | The first non-empty category contributes its starting place and the later categories fold on from there. |
| Strategies.FoldSkipsEmpty | lib/route-service.ts:146-147 | Before the route starts, an empty category changes nothing. |
| Strategies.StartPlusGroups | lib/route-service.ts:149-158 | A starting place plus the groups of the other categories is part of the input. |
| Insertion.FindBestInsertPosition | lib/route-service.ts:250-266 | Position is in [0, n]. It is n for a place without coordinates. Otherwise it is the first position of least insertion cost. |
| Insertion.BestInsertPositionIsShortest | lib/route-service.ts:250-290 | Inserting at the chosen position gives a total distance no longer than at any position, and strictly shorter than at every earlier one. |
| Insertion.InsertionCostIsIncrease | lib/route-service.ts:268-290 | The insertion cost of a place with coordinates is exactly the growth of the total distance. |
| Insertion.InsertionCostLegs | lib/route-service.ts:268-290 | The cost is the legs to and from the new place less the leg between its neighbours. A leg with a missing or coordinate-less end counts nothing. |
| Insertion.InsertAtEnd | lib/route-service.ts:271-283 | Appending adds exactly the leg from the last place. |
| Insertion.InsertInside | lib/route-service.ts:271-287 | Inserting between two places replaces their leg by two legs. |
| Insertion.FindLogicalInsertPosition | lib/route-service.ts:307-317 | Just after the first place with a similar address or the same category, or at the end when there is none. The position is never 0 in a non-empty list. |
| Insertion.InsertPlacesWithoutCoords | lib/route-service.ts:292-305 | Adds exactly the given places, changes nothing when there are none, and keeps the first place first. |
| Insertion.InsertLogically | lib/route-service.ts:300-301 | One splice adds exactly the place and never displaces the first place. |
| Insertion.NormalizeAddress | lib/route-service.ts:320 | Only lower-case ASCII letters and digits remain. |
| Insertion.AddressesSimilarIff | lib/route-service.ts:319-329 | Two addresses are similar exactly when their normalised forms are equal and longer than 3 characters, since normalisation leaves no whitespace to split on. |
| RouteMetrics.AdjustDistance | lib/route-service.ts:184-195 | Parks and walkways count 0.8 of their distance under the scenic option; every other distance is unchanged. |
| RouteMetrics.TotalDistance | lib/route-service.ts:331-344 | Non-negative, and 0 for fewer than two places. |
| RouteMetrics.TotalDistanceIsLegSum | lib/route-service.ts:331-344 | The total distance is the sum, in index order, of the leg from each place to the next. A leg counts the distance only when both ends have coordinates. |
| RouteMetrics.TotalDistanceNoCoords | lib/route-service.ts:338 | A list in which no place has coordinates has total distance 0. |
| RouteMetrics.TotalDistanceSplit | lib/route-service.ts:331-344 | The total distance splits at any place into the distances up to it and from it. |
| RouteMetrics.Centroid | lib/route-service.ts:197-216 | (0, 0) when no place has coordinates. |
| RouteMetrics.CentroidWithin | lib/route-service.ts:197-216 | The centroid lies in every latitude/longitude box that holds all places with coordinates. |
| RouteMetrics.MeanWithin | lib/route-service.ts:212-215 | A mean of values in [lo, hi] lies in [lo, hi]. |
| RouteMetrics.Round | lib/route-service.ts:391 | `Math.round` gives the integer within half of x, halves going up. |
| RouteMetrics.EstimateRouteTime | lib/route-service.ts:386-392 | The time is within half a minute of 15·d + 20·n (walking, 4 km/h) or 2·d + 15·n (driving, 30 km/h). |
| RouteMetrics.EstimateRouteTimeMonotone | lib/route-service.ts:386-392 | A longer route with at least as many stops never takes less time. |
| RouteMetrics.AssessRouteQuality | lib/route-service.ts:394-406 | With k = max(1, stops - 1) legs: walking is excellent exactly when the distance is under 3 km and under 0.5 km per leg, good exactly when it is not excellent, under 5 km and under 1 km per leg, and fair otherwise. Driving uses 15 km and 2 km per leg, then 25 km and 5 km per leg. Distance 0 is excellent. |
| RouteMetrics.QualityMonotone | lib/route-service.ts:394-406 | For a fixed number of stops, a longer route is never rated better. |
| RouteMetrics.RouteScore | lib/route-service.ts:346-370 | The score is never negative, and is either 0 or the raw score. |
| RouteMetrics.ScoreNonIncreasingInDistance | lib/route-service.ts:346-370 | Holding everything else fixed, a longer route never scores higher. |
| RouteMetrics.ScenicBonus | lib/route-service.ts:364-367 | The scenic option adds exactly 10 per park or walkway before the floor at 0. |
| RouteMetrics.ScoreCeiling | lib/route-service.ts:346-370 | Without the scenic option no route scores above 120. An empty, quick route with no maximum distance scores exactly 120. |
| RouteMetrics.CreateRouteResult | lib/route-service.ts:372-384 | Keeps the places and distance. The time is the route-time estimate, the quality the quality rating and the link the directions link, each for these places, distance and mode. The link is empty exactly when there are no places. |
| RouteMetrics.CreateSinglePlaceRoute | lib/route-service.ts:408-416 | The one place, distance 0, 30 minutes, excellent. The link reads back with that place as both origin and destination. |
| RouteMetrics.AddressBasedRoute | lib/route-service.ts:418-431 | The places as given, distance 0, 45 minutes per place, fair, and the directions link of those places. |
| RouteMetrics.AddressLinkReadsBack | lib/route-service.ts:418-431 | When no place has coordinates, the link is made of addresses alone: its origin, destination and waypoints read back as the UTF-8 bytes of the addresses, in route order, with the mode's name. |
| RouteMetrics.FallbackRoute | lib/route-service.ts:433-436 | The places as given, with distance 0, 20 (walking) or 15 (driving) minutes per place, rated excellent, and the directions link of those places. |
| Places.CoordsPartition | lib/route-service.ts:57-58 | The two coordinate filters together hold every place exactly as often as the input does. |
| Places.RemoveById | lib/route-service.ts:67 | With unique ids, removing the start's id removes exactly the start. |
| Places.FilterUniqueIds | lib/route-service.ts:57 | Filtering keeps ids unique. |
| Places.LatLngText | lib/utils-ycv.ts:91 | `lat,lng` holds neither `&` nor `\|`. |
| ArgMin.FirstMinIndex | lib/route-service.ts:73-86 | The scan's index holds a least value, strictly below every earlier one. |
| ArgMin.FirstMinUnique | lib/route-service.ts:82-85 | Only one index is a least value strictly below everything before it. |
| ArgMin.FirstMinSameOrder | lib/route-service.ts:231-240 | Two keys that order the elements alike pick the same index. |
| Greedy.Chain | lib/utils-ycv.ts:60-75 | The walk visits each remaining place exactly once. |
| Greedy.ChainIsGreedy | lib/route-service.ts:72-92 | Each hop of the walk goes to a cheapest place not yet visited. |
| Greedy.ChainTakesFirstCheapest | lib/route-service.ts:72-92 | A list of stops is the walk exactly when each stop is a cheapest remaining one, the earliest in the remaining list on ties, and is then taken out of the list. |
| Greedy.ChainLength | lib/route-service.ts:90 | The accumulated length is the cost of the path walked. |
| Greedy.ChainSameOrder | lib/route-service.ts:224-245 | Costs that rank candidates alike give the same walk. |
| Greedy.ChainSingle | lib/route-service.ts:72-92 | A walk to one place costs that one hop. |
| Utils.OrderPlacesByProximity | lib/utils-ycv.ts:44-79 | A permutation of the input. Unchanged when there is at most one place or none has coordinates. |
| Utils.ProximityOrder | lib/utils-ycv.ts:55-78 | Starts at the first place with coordinates. Then come the places with coordinates in greedy nearest order, then the places without coordinates in input order. |
| Utils.ProximityWalk | lib/utils-ycv.ts:55-75 | After the first place with coordinates, the places with coordinates follow as the walk that always moves to the nearest remaining one, the earliest in input order on ties. |
| Utils.ClampStops | lib/utils-ycv.ts:19 | Always in [3, 5]. 4 when unparsable or 0. Otherwise the value clamped to [3, 5]. |
| Utils.NormalizeCity | lib/utils-ycv.ts:6-7 | The alias of the trimmed lower-cased key when it has a non-empty one, "monterrey" otherwise. |
| Utils.NormalizeMode | lib/utils-ycv.ts:9-13 | Driving exactly when the lower-cased text contains "carro" or "auto", or is "driving". |
| Utils.NormalizeInput | lib/utils-ycv.ts:5-21 | Stops are the clamped count, in [3, 5]. Mode as above. A known alias or "monterrey". The text is `user_text`, else `text`, else "plan chill", skipping empty strings, so never empty. |
| Utils.OrElse | lib/utils-ycv.ts:17 | `a \|\| b` gives the non-empty first value or the default. |
| Utils.NormalizeIdempotent | lib/utils-ycv.ts:5-21 | Normalising a normalised input changes nothing, when every produced city is its own alias. |
| Utils.NormalizeCanonical | lib/utils-ycv.ts:5-21 | An input with a canonical city, a non-empty text and 3 to 5 stops normalises to itself. |
| Utils.CityStable | lib/utils-ycv.ts:6-7 | A canonical city id normalises to itself. |
| Utils.ModeStable | lib/utils-ycv.ts:9-13 | A mode's own name normalises to that mode. |
| Utils.ModeNameRead | lib/utils-ycv.ts:11 | "driving" reads as driving and "walking" as walking. |
| Utils.GetCategoryDisplayText | lib/utils-ycv.ts:123-136 | The Spanish name of the eight known categories, the category itself otherwise. |
| Utils.GetVibeDisplayText | lib/utils-ycv.ts:139-141 | "Chill & Café" exactly for "chill-cafe", "Arte & Cultura" for everything else. |
| MapsUrl.BuildGoogleMapsUrl | lib/utils-ycv.ts:82-120 | Empty exactly for no places. Otherwise starts with the directions base URL. |
| MapsUrl.ParseBuild | lib/utils-ycv.ts:82-120 | Reading the link back gives the first token as origin and the last as destination. The middle tokens are the waypoints, empty for one or two places. The mode name is the travel mode. |
| MapsUrl.Token | lib/utils-ycv.ts:99-113 | `lat,lng` exactly when both coordinates are present. Otherwise the encoded address, which decodes to the address's UTF-8 bytes. Never holds `&` or `\|`. |
| MapsUrl.ParseJoined | lib/utils-ycv.ts:107-118 | Parameters joined by `&` read back as themselves. |
| MapsUrl.WaypointsRead | lib/utils-ycv.ts:110-115 | The waypoints parameter reads back as the list joined by `\|`. |
| MapsUrl.BuildIsJoin | lib/utils-ycv.ts:88-119 | Every link is its parameters joined by `&`. |
| Uri.DecodeEncode | lib/utils-ycv.ts:91 | An `encodeURIComponent` result decodes to the UTF-8 bytes of the original text. |
| Uri.EncodeUriComponent | lib/image-utils.ts:29 | The encoded text holds only unreserved characters and `%`, so never `&` or `\|`. |
| Validation.ValidateVibeText | lib/validation.ts:36-50 | Valid exactly when the text is not blank and its untrimmed length is 3 to 500. A blank text gets "describe", whatever its length. Then come the too-long and more-detail messages, in that order. |
| Validation.BlankBeforeLength | lib/validation.ts:37-43 | A run of spaces of any length gets the "describe" message, not "too long". |
| Validation.ValidateCity | lib/validation.ts:52-64 | Valid exactly for the four listed ids. The empty id gets "select"; any other id gets "not valid". |
| Validation.GetErrorMessage | lib/validation.ts:78-98 | An Error is checked for "fetch", then "timeout", then "rate limit"; otherwise its own message. A string comes back as it is; anything else is unknown. |
| Validation.FetchBeforeTimeout | lib/validation.ts:81-86 | A message naming both fetch and timeout is a network error. |
| Suggestions.GetCategoryName | lib/suggestion-service.ts:15-41 | The mapped plural name, or the category itself. |
| Suggestions.Categories | lib/suggestion-service.ts:51-56 | The grouping keys are exactly the categories of the places, each once, in the order the `Map` first meets them: a key comes before another when one of its places comes before every place of the other. |
| Suggestions.VibesOfOrder | lib/suggestion-service.ts:51-65 | The vibes that reach `vibeGroups` come place by place, each place's vibes in their own order. |
| Seqs.DedupFirstOrder | lib/suggestion-service.ts:51-74 | The distinct elements, as a `Set` or the keys of a `Map` list them: each occurs before any occurrence of an element listed after it. |
| Suggestions.CategorySuggestion | lib/suggestion-service.ts:68-77 | The text "explorar" plus the name. Its vibes are exactly the distinct vibes of that category's places, each once, in order of first occurrence. |
| Suggestions.CategorySuggestionsFor | lib/suggestion-service.ts:68-77 | A category chip exists exactly for categories with at least two places. The chips follow the order of the categories. |
| Suggestions.VibeSuggestionsFor | lib/suggestion-service.ts:97-105 | A vibe chip exists exactly for vibes carried at least twice that have a text. The chips follow the order of the vibes. |
| Suggestions.Combo | lib/suggestion-service.ts:108-130 | A combination chip exists exactly when both of its vibes occur on some place. |
| Suggestions.ComboSuggestions | lib/suggestion-service.ts:108-130 | The combination chips, every one of the combination kind. |
| Suggestions.GenerateSmartSuggestions | lib/suggestion-service.ts:132-139 | At most 8 chips. |
| Suggestions.SuggestionOrder | lib/suggestion-service.ts:132-139 | The result is the vibe chips, then the combinations, then the category chips, each in pushed order, cut to 8. |
| Suggestions.FilterSuggestionsByInput | lib/suggestion-service.ts:142-153 | Blank input keeps everything. Otherwise it keeps exactly the chips some lower-cased term matches in text or vibes, in their input order (a subsequence of the input). |
| Seqs.FilterSubsequence | lib/suggestion-service.ts:147 | `filter` keeps a subsequence of its input: the kept elements in their input order. |
| Suggestions.EmptyTermKeepsAll | lib/suggestion-service.ts:145-151 | An empty search term keeps every chip. |
| Suggestions.TrailingSpaceKeepsAll | lib/suggestion-service.ts:145 | A trailing space keeps every chip. |
| Suggestions.LeadingSpaceKeepsAll | lib/suggestion-service.ts:145 | A leading space keeps every chip. |
| UiPresenter.PresentForUI | lib/ui-presenter.ts:4-35 | Title and subtitle from the copy unless empty, with the documented fallbacks. One card per route stop, in order. The call to action links the route with the walking or driving text. |
| UiPresenter.CityName | lib/ui-presenter.ts:5-10 | Ciudad Victoria and Monterrey by id, Ciudad de México for every other id. |
| UiPresenter.CardFor | lib/ui-presenter.ts:16-21 | Title is the name and order is index + 1. Subtitle is display text, " • " and hint. Coordinates are present exactly when the place has both. |
| UiPresenter.CardsFollowRoute | lib/ui-presenter.ts:16-21 | Cards are numbered 1, 2, … in route order, with names and coordinates from their stops. |
| UiPresenter.SubtitleCountReads | lib/ui-presenter.ts:13-14 | The default subtitle's first word reads back as the number of selected places. |
| UiPresenter.GetLocationHint | lib/ui-presenter.ts:37-50 | The hint of a known category, "lugar especial" otherwise; never empty. |
| Preview.FilterPlacesByVibe | lib/preview-service.ts:5-32 | Empty for an unknown city or blank text. Otherwise exactly min(20, number of places with a positive score) entries, by non-increasing score. Each entry is a city place with its positive score. |
| Preview.PreviewIsStableRanking | lib/preview-service.ts:18-31 | The preview is the first 20 of the one stable ranking of the scored places. |
| Preview.MatchScore | lib/preview-service.ts:18-23 | The number of terms, repeats counted, that occur in the searchable text. |
| Preview.CountFrom | lib/preview-service.ts:18-23 | The `reduce` ends at its starting score plus the number of terms that occur in the text. |
| Preview.ScoreAll | lib/preview-service.ts:13-28 | The places with a positive score, each once as often as it occurs in the city, in the city's order, paired with that score. |
| Preview.PairedCons | lib/preview-service.ts:13-28 | One more place through the loop keeps the pairing in the city's order. |
| Preview.PairedSound | lib/preview-service.ts:25-27 | Every pushed entry is a city place with its positive score. |
| Preview.PairedComplete | lib/preview-service.ts:25-27 | A place is pushed with its score exactly when that score is positive. |
| Preview.Rank | lib/preview-service.ts:31 | At most 20, non-increasing score, members of the input. |
| Preview.LeadingSpaceMatchesAll | lib/preview-service.ts:9-23 | Leading whitespace makes an empty term that every place contains, so the preview is as long as it can be. |
| Preview.GetTopPreviewPlaces | lib/preview-service.ts:34-36 | A prefix of the places, of length min(count, n), with count defaulting to 3. A negative count drops that many from the end. |
| ImageUtils.GenerateImageQuery | lib/image-utils.ts:6-22 | The words of the cleaned keywords (their non-empty whitespace-separated pieces), joined by single spaces. So only word characters and single spaces, none at either end, and the word characters are those of the keywords. |
| ImageUtils.TrimJoinedSplit | lib/image-utils.ts:20-21 | Collapsing whitespace runs to one space and then trimming gives the non-empty pieces joined by single spaces. |
| ImageUtils.CollapseWs | lib/image-utils.ts:20 | The text's `\s+`-separated pieces, empty end pieces included, joined by single spaces. So every run of whitespace becomes one space, every other character stays, and only non-empty text comes from non-empty text. |
| ImageUtils.PresentedQueryWords | lib/image-utils.ts:7-15 | For a presented card, the query's word characters are those of the name, the category's display name and the city, in order. The hint is never used. |
| ImageUtils.QueryOfPresentedCard | lib/image-utils.ts:11-15 | The keywords of a presented card are the lower-cased name, display name and city. |
| ImageUtils.GetPlaceImageUrl | lib/image-utils.ts:27-30 | The placeholder prefix followed by text that decodes to the query's UTF-8 bytes. |
| StableSort.SortBy | lib/preview-service.ts:31 | The stable sort is a permutation, sorted by key, keeping the input order within each key. |
| StableSort.SortedUnique | lib/suggestion-service.ts:134-138 | Only one sequence is sorted and keeps every key class, so the stable sort's result is determined. |
| StableSort.HeadIsFirstMin | lib/route-service.ts:111-119 | The sorted list starts with the first element of least key. |
| StableSort.SortThreeBlocks | lib/suggestion-service.ts:134-138 | Three blocks of constant keys sort into key order, each block unchanged. |
| Text.TrimEmptyIffBlank | lib/validation.ts:37 | Trimming leaves nothing exactly when the text is blank. |
| Text.SplitOn | lib/suggestion-service.ts:145 | The pieces hold no separator and join back to the text. |
| Text.SplitJoin | lib/utils-ycv.ts:114 | Splitting undoes joining when no piece holds the separator. |
| Text.SplitOnTrailing | lib/suggestion-service.ts:145 | A trailing separator gives an empty last piece. |
| Text.SplitWsLeadingSpace | lib/preview-service.ts:9 | Leading whitespace gives an empty first term. |
| Text.SplitWsTrailingSpace | lib/preview-service.ts:9 | Trailing whitespace gives an empty last term. |
| Text.TextBeforeJoined | lib/image-utils.ts:13 | The text before " • " is the part before it, when that part holds no bullet. |
| Text.NatToString | lib/ui-presenter.ts:14 | Decimal digits that read back as the count. |
| Text.Utf16Length | lib/validation.ts:41-45 | `length` counts one or two units per character. It equals the number of characters exactly when none lies outside the Basic Multilingual Plane. |

## Left out

- `calculateDistance` (lib/utils-ycv.ts:24-33) is floating-point trigonometry. It is the `dist` parameter, known only to return non-negative reals. Symmetry and zero on equal points are not assumed, because no property needs them.
- JavaScript number formatting in `${place.lat},${place.lng}` is the `show` parameter. It is known only to produce numeral characters.
- `Number.parseInt` is not modelled. `RawInput.maxStops` is its already-parsed result, with `None` for NaN.
- `toLowerCase` is modelled on ASCII letters only. Other letters keep their case.
- `encodeURIComponent` throws a `URIError` on a lone surrogate. A Dafny `char` is a Unicode scalar value, so a string holding a lone surrogate cannot be written and that error is not modelled.
- Floating-point rounding of reals is not modelled. Distances, the centroid and scores are exact reals.
- Exceptions thrown inside a strategy, and the `console.warn` that reports them, are not modelled. In the model no strategy fails. `RouteService.SelectRoute` still takes optional outcomes, so the fallback path is stated and proved.
- `avoidBacktracking` is accepted by the source but never read, so `RouteOptions` has no such field.
- `DATASET`, `CITY_ALIASES` and `getPlacesByCity` are not part of this model. The city's place list and the alias table are parameters.
- Preview.FilterPlacesByVibe: takes the city's places as found by `DATASET.cities.find`, the lookup every other reader of the dataset makes (lib/utils-ycv.ts:37, lib/suggestion-service.ts:11). As written, lib/preview-service.ts:6 calls `find` on `DATASET` itself, whose type is `{ cities: City[] }` (lib/types.ts:38), so it would fail on every call rather than return a preview. The model does not reproduce that failure. Which places survive the cut at 20 when scores tie, and in what order, is stated by `Preview.PreviewIsStableRanking`.
- The default argument `options = { mode: "walking" }` of `generateOptimalRoute` (lib/route-service.ts:20) is not modelled. Every call in the model passes its options explicitly; a caller leaving them out is modelled by passing walking with no other option.
- Lookups such as `hints[category]` in a JavaScript object literal also find inherited keys such as "constructor". The model's tables hold only the listed keys.
- Values of other types in request fields (numbers, objects, `null` text) are not modelled. Fields are strings or absent.
- The `city_id as CityId` cast in `normalizeInput` is not checked by the source. The model's city id is any string from the alias table, which need not be one of `validateCity`'s four ids.
- `getPlacesForCityAndVibe`, `validateUserInput`, the AI service, the prompts, the HTTP handlers and the React components are outside the modelled core.
- Strategies.NearestNeighborPermutation: requires unique ids. The source removes every place sharing the start's id from the remaining list, so with repeated ids it drops places.
- Strategies.InsertEach: states only which places are added. That each goes to the cheapest position is `Insertion.FindBestInsertPosition`'s contract, which each step calls.
- Strategies.FindBestStartingPlace: requires a non-empty list. The source's `reduce` without an initial value throws on an empty array, and every caller passes a non-empty list.
- RouteMetrics.TotalDistance: its own contract states only that the sum is non-negative and 0 below two places. That it is the loop's sum of legs is `RouteMetrics.TotalDistanceIsLegSum`.
- RouteMetrics.Centroid: its own contract states only the (0, 0) case. Where the mean lies is `RouteMetrics.CentroidWithin`.
- Strategies.CreateSpiralRoute: its own contract states the permutation and the start. That each step goes to the nearest remaining place is `Strategies.SpiralIsNearest`.
- Strategies.CategoryFold: its own contract states only where its places come from. Which places it adds is `Strategies.CategoryFoldContents`.
- Strategies.CategoryOptimizedRoute: its own contract states the reported distance and that every place is an input place. Which places it holds is `Strategies.CategoryRouteContents`.
- Insertion.InsertPlacesWithoutCoords: states which places are added, not where. Each position is `Insertion.FindLogicalInsertPosition`'s contract, which each step calls.
- MapsUrl.BuildGoogleMapsUrl: its own contract states only emptiness and the base URL. What the link says is `MapsUrl.ParseBuild`.
- Greedy.Chain: its own contract states only that each remaining place is visited once. The order, ties included, is `Greedy.ChainTakesFirstCheapest`.
- Uri.EncodeUriComponent: its own contract states the character set of the result. That it encodes the text's UTF-8 bytes is `Uri.DecodeEncode`.
- Preview.Rank: does not state stability. That the preview is the stable ranking is `Preview.PreviewIsStableRanking`.
- Suggestions.ComboSuggestions: states only the kind of its chips. When each chip exists is `Suggestions.Combo`.
- Suggestions.GenerateSmartSuggestions: its own contract states only the limit of 8. The order of the three blocks is `Suggestions.SuggestionOrder`. The order within a block is the chip builders' (`CategorySuggestionsFor`, `VibeSuggestionsFor`), over keys ordered by `Suggestions.Categories` and `Seqs.DedupFirstOrder`.
