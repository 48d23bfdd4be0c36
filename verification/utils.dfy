/** The helpers of lib/utils-ycv.ts the route engine and the interface use:
    the proximity ordering, input normalisation and the display texts.
    `calculateDistance` is the `Distance` parameter and `buildGoogleMapsUrl`
    is `MapsUrl.BuildGoogleMapsUrl`. */
module Utils {
  import opened Wrappers
  import opened Seqs
  import opened Greedy
  import opened Text
  import opened Places

  /** `orderPlacesByProximity`: short lists and lists without coordinates
      as given; otherwise the greedy walk by plain distance from the first
      place with coordinates through the others, then the places without
      coordinates in their order. */
  function OrderPlacesByProximity(dist: Distance, places: seq<Place>): (r: seq<Place>)
    ensures multiset(r) == multiset(places)
    ensures |places| <= 1 || |WithCoords(places)| == 0 ==> r == places
  {
    var withCoords := WithCoords(places);
    var withoutCoords := WithoutCoords(places);
    if |places| <= 1 || |withCoords| == 0 then places
    else
      CoordsPartition(places);
      assert withCoords == [withCoords[0]] + withCoords[1..];
      [withCoords[0]] + Chain(withCoords[0], withCoords[1..], RawHop(dist)).stops + withoutCoords
  }

  /** The ordered list starts with the places with coordinates, from the
      first of them in the input and each hop to a nearest place not yet
      visited, and ends with the places without coordinates in input
      order. */
  lemma ProximityOrder(dist: Distance, places: seq<Place>)
    requires |places| > 1 && |WithCoords(places)| > 0
    ensures var withCoords := WithCoords(places);
            var n := |withCoords|;
            var r := OrderPlacesByProximity(dist, places);
            |r| == |places| && n <= |r| && r[0] == withCoords[0] &&
            IsGreedy(r[..n], RawHop(dist)) &&
            (forall i :: 0 <= i < n ==> HasCoords(r[i])) &&
            r[n..] == WithoutCoords(places)
  {
    var withCoords := WithCoords(places);
    var n := |withCoords|;
    var path := [withCoords[0]] + Chain(withCoords[0], withCoords[1..], RawHop(dist)).stops;
    var r := OrderPlacesByProximity(dist, places);
    assert r == path + WithoutCoords(places);
    assert |path| == n;
    assert r[..n] == path && r[n..] == WithoutCoords(places);
    ChainIsGreedy(withCoords[0], withCoords[1..], RawHop(dist));
    FilterMembers(places, HasCoords);
    assert multiset(path) == multiset(withCoords) by {
      assert withCoords == [withCoords[0]] + withCoords[1..];
    }
    forall i | 0 <= i < n ensures HasCoords(r[i]) {
      assert path[i] in multiset(withCoords);
    }
    assert |multiset(r)| == |multiset(places)|;
  }

  /** After the first place with coordinates, the list moves each time to
      the nearest remaining place with coordinates, the earliest in input
      order on ties, as the strict `<` of the loop keeps the first. */
  lemma ProximityWalk(dist: Distance, places: seq<Place>)
    requires |places| > 1 && |WithCoords(places)| > 0
    ensures var withCoords := WithCoords(places);
            var r := OrderPlacesByProximity(dist, places);
            |withCoords| <= |r| &&
            TakesFirstCheapest(withCoords[0], withCoords[1..], r[1..|withCoords|], RawHop(dist))
  {
    var withCoords := WithCoords(places);
    var n := |withCoords|;
    var walk := Chain(withCoords[0], withCoords[1..], RawHop(dist)).stops;
    var r := OrderPlacesByProximity(dist, places);
    assert r == [withCoords[0]] + walk + WithoutCoords(places);
    assert r[1..n] == walk;
    ChainTakesFirstCheapest(withCoords[0], withCoords[1..], walk, RawHop(dist));
  }

  /** The request fields `normalizeInput` reads; an absent field is `None`.
      `maxStops` is what `Number.parseInt` made of `max_stops`, `None` for
      `NaN`. */
  datatype RawInput = RawInput(
    cityId: Option<string>,
    city: Option<string>,
    mode: Option<string>,
    userText: Option<string>,
    text: Option<string>,
    maxStops: Option<int>)

  datatype UserInput = UserInput(cityId: string, userText: string, mode: Mode, maxStops: int)

  /** `a || b` for a string field: an absent or empty string is falsy. */
  function OrElse(a: Option<string>, b: string): (r: string)
    ensures r == b || (a.Some? && r == a.value && r != "")
    ensures b != "" ==> r != ""
  {
    if a.Some? && a.value != "" then a.value else b
  }

  const DefaultCity: string := "monterrey"
  const DefaultText: string := "plan chill"

  /** `(rawInput.mode || "").toLowerCase()` selects driving. */
  predicate IsDrivingText(modeText: string) {
    Contains(modeText, "carro") || Contains(modeText, "auto") || modeText == "driving"
  }

  /** `Math.min(Math.max(n || 4, 3), 5)`. */
  function ClampStops(n: Option<int>): (k: int)
    ensures 3 <= k <= 5
    ensures n.None? || n == Some(0) ==> k == 4
    ensures n.Some? && 3 <= n.value <= 5 ==> k == n.value
    ensures n.Some? && n.value != 0 && n.value < 3 ==> k == 3
    ensures n.Some? && n.value > 5 ==> k == 5
  {
    var m := if n.Some? && n.value != 0 then n.value else 4;
    if m < 3 then 3 else if m > 5 then 5 else m
  }

  /** `(rawInput.city_id || rawInput.city || "").toLowerCase().trim()`. */
  function CityKey(raw: RawInput): string {
    Trim(Lower(OrElse(raw.cityId, OrElse(raw.city, ""))))
  }

  /** `CITY_ALIASES[key] || "monterrey"`. */
  function NormalizeCity(raw: RawInput, aliases: map<string, string>): (c: string)
    ensures c != "" && (c == DefaultCity || c in aliases.Values)
    ensures CityKey(raw) in aliases && aliases[CityKey(raw)] != "" ==> c == aliases[CityKey(raw)]
    ensures !(CityKey(raw) in aliases && aliases[CityKey(raw)] != "") ==> c == DefaultCity
  {
    var key := CityKey(raw);
    if key in aliases && aliases[key] != "" then aliases[key] else DefaultCity
  }

  /** Driving when the lower-cased mode text asks for it, walking
      otherwise. */
  function NormalizeMode(raw: RawInput): (m: Mode)
    ensures m == Driving <==> IsDrivingText(Lower(OrElse(raw.mode, "")))
  {
    if IsDrivingText(Lower(OrElse(raw.mode, ""))) then Driving else Walking
  }

  /** `normalizeInput`; `aliases` is the `CITY_ALIASES` table. An alias
      missing from the table, or mapped to the empty string, gives
      "monterrey". */
  function NormalizeInput(raw: RawInput, aliases: map<string, string>): (u: UserInput)
    ensures 3 <= u.maxStops <= 5
    ensures u.mode == Driving <==> IsDrivingText(Lower(OrElse(raw.mode, "")))
    ensures u.cityId == DefaultCity || u.cityId in aliases.Values
    ensures var key := CityKey(raw);
            u.cityId == if key in aliases && aliases[key] != "" then aliases[key] else DefaultCity
    ensures u.userText != ""
    ensures u.maxStops == ClampStops(raw.maxStops)
    ensures u.userText == OrElse(raw.userText, OrElse(raw.text, DefaultText))
  {
    UserInput(NormalizeCity(raw, aliases), OrElse(raw.userText, OrElse(raw.text, DefaultText)),
              NormalizeMode(raw), ClampStops(raw.maxStops))
  }

  /** The request a normalised input would send again. */
  function AsRaw(u: UserInput): RawInput {
    RawInput(Some(u.cityId), None, Some(ModeName(u.mode)), Some(u.userText), None, Some(u.maxStops))
  }

  /** `v` is a canonical city id: its own alias, already lower-case and
      trimmed. */
  predicate SelfAlias(aliases: map<string, string>, v: string) {
    v in aliases && aliases[v] == v && Trim(Lower(v)) == v
  }

  /** Normalising is idempotent when every city the table can produce,
      "monterrey" included, is its own alias. */
  lemma NormalizeIdempotent(raw: RawInput, aliases: map<string, string>)
    requires SelfAlias(aliases, DefaultCity)
    requires forall k :: k in aliases && aliases[k] != "" ==> SelfAlias(aliases, aliases[k])
    ensures NormalizeInput(AsRaw(NormalizeInput(raw, aliases)), aliases) == NormalizeInput(raw, aliases)
  {
    var u := NormalizeInput(raw, aliases);
    var key := CityKey(raw);
    if key in aliases && aliases[key] != "" {
      assert SelfAlias(aliases, aliases[key]);
    }
    NormalizeCanonical(u, aliases);
  }

  /** An input whose city is canonical, whose text is non-empty and whose
      stop count is in range normalises to itself. */
  lemma NormalizeCanonical(u: UserInput, aliases: map<string, string>)
    requires SelfAlias(aliases, u.cityId) && u.cityId != ""
    requires u.userText != "" && 3 <= u.maxStops <= 5
    ensures NormalizeInput(AsRaw(u), aliases) == u
  {
    CityStable(u.cityId, u, aliases);
    ModeStable(u);
    assert ClampStops(Some(u.maxStops)) == u.maxStops;
    assert OrElse(Some(u.userText), OrElse(None, DefaultText)) == u.userText;
  }



  /** A canonical city id normalises to itself. */
  lemma CityStable(v: string, u: UserInput, aliases: map<string, string>)
    requires SelfAlias(aliases, v) && v != "" && u.cityId == v
    ensures NormalizeCity(AsRaw(u), aliases) == v
  {
    assert OrElse(AsRaw(u).cityId, OrElse(AsRaw(u).city, "")) == v;
  }

  lemma ModeStable(u: UserInput)
    ensures NormalizeMode(AsRaw(u)) == u.mode
  {
    ModeNameRead(u.mode);
  }

  /** A mode's own name reads back as that mode. */
  lemma ModeNameRead(m: Mode)
    ensures IsDrivingText(Lower(OrElse(Some(ModeName(m)), ""))) <==> m == Driving
  {
    LowerModeName(m);
    if m == Walking {
      WalkingNotDriving();
    }
  }

  /** Mode names are lower-case already. */
  lemma LowerModeName(m: Mode)
    ensures Lower(ModeName(m)) == ModeName(m)
  {
    var n := ModeName(m);
    forall i | 0 <= i < |n| ensures LowerChar(n[i]) == n[i] {
      assert 'a' <= n[i] <= 'z';
    }
  }

  /** "walking" holds neither "carro" nor "auto". */
  lemma WalkingNotDriving()
    ensures !IsDrivingText("walking")
  {
    if Contains("walking", "carro") {
      ContainsChars("walking", "carro", 0);
      assert false;
    }
    if Contains("walking", "auto") {
      ContainsChars("walking", "auto", 1);
      assert false;
    }
  }


  /** `getCategoryDisplayText`'s table. */
  const CategoryDisplay: map<string, string> := map[
    "park" := "Parque",
    "cafe" := "Café",
    "cafe-bakery" := "Panadería",
    "museum" := "Museo",
    "landmark" := "Monumento",
    "walkway" := "Paseo",
    "district" := "Barrio",
    "zoo" := "Zoológico"]

  /** `getCategoryDisplayText`: the Spanish name of a known category, the
      category itself otherwise. */
  function GetCategoryDisplayText(category: string): (r: string)
    ensures category in CategoryDisplay ==> r == CategoryDisplay[category] && r != ""
    ensures category !in CategoryDisplay ==> r == category
  {
    if category in CategoryDisplay && CategoryDisplay[category] != "" then CategoryDisplay[category] else category
  }

  /** `getVibeDisplayText`: every vibe other than "chill-cafe" reads as
      "Arte & Cultura". */
  function GetVibeDisplayText(vibe: string): (r: string)
    ensures vibe == "chill-cafe" <==> r == "Chill & Café"
    ensures vibe != "chill-cafe" <==> r == "Arte & Cultura"
  {
    if vibe == "chill-cafe" then "Chill & Café" else "Arte & Cultura"
  }
}
