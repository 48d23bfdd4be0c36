/** The records the route engine and its helpers work on: a place with
    optional coordinates, the travel mode, and the two host-language
    functions the source calls but that are not modelled here (great-circle
    distance and JavaScript number formatting), which enter as parameters. */
module Places {
  import opened Wrappers
  import opened Seqs

  /** A distance in kilometres. The Haversine formula returns `R * c` with
      `c = 2 * atan2(...)` in [0, pi], so distances are never negative. */
  type Km = r: real | 0.0 <= r

  datatype Coord = Coord(lat: real, lng: real)

  /** Great-circle distance, as `calculateDistance(lat1, lng1, lat2, lng2)`. */
  type Distance = (Coord, Coord) -> Km

  /** A string JavaScript can print for a finite number: digits, sign,
      decimal point and exponent marker. */
  predicate IsNumeralChar(c: char) {
    ('0' <= c <= '9') || c == '-' || c == '+' || c == '.' || c == 'e'
  }

  type Numeral = s: string | forall i :: 0 <= i < |s| ==> IsNumeralChar(s[i]) witness "0"

  /** `${x}` for a number `x`. */
  type Show = real -> Numeral

  datatype Mode = Walking | Driving

  /** The `TravelMode` string: "walking" or "driving". */
  function ModeName(m: Mode): string {
    match m
    case Walking => "walking"
    case Driving => "driving"
  }

  /** A place of the dataset. `description` is the optional free text some
      places carry; an absent description is the empty string. */
  datatype Place = Place(
    id: string,
    name: string,
    category: string,
    vibes: seq<string>,
    address: string,
    lat: Option<real>,
    lng: Option<real>,
    description: string)

  /** `p.lat !== null && p.lng !== null`. */
  predicate HasCoords(p: Place) {
    p.lat.Some? && p.lng.Some?
  }

  predicate LacksCoords(p: Place) {
    !HasCoords(p)
  }

  /** The point the source measures from. Where it writes `p.lat!` on a
      place whose coordinate is null, JavaScript arithmetic reads null as 0. */
  function CoordOf(p: Place): Coord {
    Coord(p.lat.GetOr(0.0), p.lng.GetOr(0.0))
  }

  /** `places.filter((p) => p.lat !== null && p.lng !== null)`. */
  function WithCoords(places: seq<Place>): seq<Place> {
    Filter(places, HasCoords)
  }

  /** `places.filter((p) => p.lat === null || p.lng === null)`. */
  function WithoutCoords(places: seq<Place>): seq<Place> {
    Filter(places, LacksCoords)
  }

  /** The two filters split a list into two parts that together hold every
      place exactly as often as the list does. */
  lemma CoordsPartition(places: seq<Place>)
    ensures multiset(WithCoords(places)) + multiset(WithoutCoords(places)) == multiset(places)
  {
    FilterPartition(places, HasCoords, LacksCoords);
  }

  /** Parks and walkways, which the scenic option favours. */
  predicate IsScenic(p: Place) {
    p.category == "park" || p.category == "walkway"
  }

  /** `(p) => p.category === cat`. */
  function InCategory(cat: string): Place -> bool {
    (p: Place) => p.category == cat
  }

  /** `(p) => p.id !== id`. */
  function IdDiffers(id: string): Place -> bool {
    (p: Place) => p.id != id
  }

  /** No two places share an id. */
  predicate UniqueIds(places: seq<Place>) {
    forall i, j :: 0 <= i < j < |places| ==> places[i].id != places[j].id
  }

  /** `(a, b) => calculateDistance(a.lat!, a.lng!, b.lat!, b.lng!)`: the
      plain distance between two places. */
  function RawHop(dist: Distance): (Place, Place) -> real {
    (a: Place, b: Place) => dist(CoordOf(a), CoordOf(b))
  }

  /** `${p.lat},${p.lng}`. */
  function LatLngText(p: Place, show: Show): (r: string)
    requires HasCoords(p)
    ensures '&' !in r && '|' !in r
  {
    var a: string := show(p.lat.value);
    var b: string := show(p.lng.value);
    assert forall i :: 0 <= i < |a| ==> IsNumeralChar(a[i]);
    assert forall i :: 0 <= i < |b| ==> IsNumeralChar(b[i]);
    a + "," + b
  }

  /** A sub-list of a list without repeated ids has no repeated ids. */
  lemma {:induction false} FilterUniqueIds(places: seq<Place>, f: Place -> bool)
    requires UniqueIds(places)
    ensures UniqueIds(Filter(places, f))
    decreases |places|
  {
    if |places| > 0 {
      var rest := Filter(places[1..], f);
      FilterUniqueIds(places[1..], f);
      FilterMembers(places[1..], f);
      if f(places[0]) {
        var r := [places[0]] + rest;
        forall i, j | 0 <= i < j < |r| ensures r[i].id != r[j].id {
          if i == 0 {
            assert r[j] in places[1..];
            var k :| 0 <= k < |places[1..]| && places[1..][k] == r[j];
            assert places[k + 1] == r[j];
          } else {
            assert r[i] == rest[i - 1] && r[j] == rest[j - 1];
          }
        }
      }
    }
  }

  /** Removing every place with the id of a member removes exactly that
      member, when ids are unique. */
  lemma {:induction false} RemoveById(places: seq<Place>, x: Place)
    requires UniqueIds(places) && x in places
    ensures multiset(Filter(places, IdDiffers(x.id))) + multiset{x} == multiset(places)
    decreases |places|
  {
    var tail := places[1..];
    assert places == [places[0]] + tail;
    UniqueIdsTail(places);
    assert multiset(places) == multiset{places[0]} + multiset(tail);
    if places[0] == x {
      HeadIdUnique(places);
      FilterKeepsAll(tail, IdDiffers(x.id));
      assert Filter(places, IdDiffers(x.id)) == Filter(tail, IdDiffers(x.id));
    } else {
      var j :| 0 <= j < |places| && places[j] == x;
      assert places[0].id != x.id;
      RemoveById(tail, x);
      assert Filter(places, IdDiffers(x.id)) == [places[0]] + Filter(tail, IdDiffers(x.id));
    }
  }

  lemma UniqueIdsTail(places: seq<Place>)
    requires UniqueIds(places) && |places| > 0
    ensures UniqueIds(places[1..])
  {
    var tail := places[1..];
    forall i, j | 0 <= i < j < |tail| ensures tail[i].id != tail[j].id {
      assert tail[i] == places[i + 1] && tail[j] == places[j + 1];
    }
  }

  /** With unique ids, no later place shares the first one's id. */
  lemma HeadIdUnique(places: seq<Place>)
    requires UniqueIds(places) && |places| > 0
    ensures forall i :: 0 <= i < |places[1..]| ==> IdDiffers(places[0].id)(places[1..][i])
  {
    var tail := places[1..];
    forall i | 0 <= i < |tail| ensures IdDiffers(places[0].id)(tail[i]) {
      assert tail[i] == places[i + 1];
    }
  }
}
