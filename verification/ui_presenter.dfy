/** lib/ui-presenter.ts: turns a finished plan into what the page shows, a
    header, one card per stop of the route and a link to the route. */
module UiPresenter {
  import opened Wrappers
  import opened Text
  import opened Places
  import opened Utils

  /** The model-written `ui_copy`; an empty field means none was written. */
  datatype Copy = Copy(title: string, subtitle: string)

  /** The parts of `response.route` the presenter reads. */
  datatype RouteView = RouteView(ordered: seq<Place>, gmapsUrl: string, mode: Mode)

  /** The parts of a `YCVResponse` the presenter reads. */
  datatype Response = Response(cityId: string, vibeCode: string, uiCopy: Copy, selection: seq<Place>, route: RouteView)

  datatype Header = Header(title: string, subtitle: string, badge: string)

  /** A `UICard`; `coords` is `null` for a place without coordinates. */
  datatype Card = Card(title: string, subtitle: string, coords: Option<string>, order: nat)

  datatype Cta = Cta(url: string, text: string)

  datatype Presentation = Presentation(header: Header, cards: seq<Card>, cta: Cta)

  /** The display name of a city id; every id other than the two named
      reads as Mexico City. */
  function CityName(cityId: string): (r: string)
    ensures r == "Ciudad Victoria" <==> cityId == "ciudad-victoria"
    ensures r == "Monterrey" <==> cityId == "monterrey"
    ensures r == "Ciudad de México" <==> cityId != "ciudad-victoria" && cityId != "monterrey"
  {
    if cityId == "ciudad-victoria" then "Ciudad Victoria"
    else if cityId == "monterrey" then "Monterrey"
    else "Ciudad de México"
  }

  /** `getLocationHint`'s table. */
  const Hints: map<string, string> := map[
    "park" := "perfecto para fotos",
    "cafe" := "ambiente relajado",
    "cafe-bakery" := "café y pan artesanal",
    "museum" := "arte y cultura",
    "landmark" := "icónico de la ciudad",
    "walkway" := "paseo escénico",
    "district" := "barrio con historia",
    "zoo" := "diversión familiar"]

  const DefaultHint: string := "lugar especial"

  /** `getLocationHint`: the hint of a known category, "lugar especial"
      for any other. */
  function GetLocationHint(category: string): (r: string)
    ensures category in Hints ==> r == Hints[category]
    ensures category !in Hints ==> r == DefaultHint
    ensures r != ""
  {
    if category in Hints && Hints[category] != "" then Hints[category] else DefaultHint
  }

  /** What separates a card's category from its hint. */
  const CardSeparator: string := " • "

  /** The card of the stop at `index` (0-based) of the route. */
  function CardFor(p: Place, index: nat, show: Show): (c: Card)
    ensures c.title == p.name && c.order == index + 1
    ensures c.subtitle == GetCategoryDisplayText(p.category) + CardSeparator + GetLocationHint(p.category)
    ensures c.coords.Some? <==> HasCoords(p)
    ensures HasCoords(p) ==> c.coords == Some(LatLngText(p, show))
  {
    Card(p.name,
         GetCategoryDisplayText(p.category) + CardSeparator + GetLocationHint(p.category),
         if HasCoords(p) then Some(LatLngText(p, show)) else None,
         index + 1)
  }

  /** The words of the default subtitle after the count. */
  const SubtitleWords: string := "lugares seleccionados para tu experiencia perfecta"

  const SubtitleTail: string := " " + SubtitleWords

  /** `presentForUI`. */
  function PresentForUI(response: Response, show: Show): (r: Presentation)
    ensures r.header.badge == response.vibeCode
    ensures response.uiCopy.title != "" ==> r.header.title == response.uiCopy.title
    ensures response.uiCopy.title == "" ==>
              r.header.title == "Plan " + GetVibeDisplayText(response.vibeCode) + " en " + CityName(response.cityId)
    ensures response.uiCopy.subtitle != "" ==> r.header.subtitle == response.uiCopy.subtitle
    ensures response.uiCopy.subtitle == "" ==> r.header.subtitle == NatToString(|response.selection|) + SubtitleTail
    ensures |r.cards| == |response.route.ordered|
    ensures forall i :: 0 <= i < |r.cards| ==> r.cards[i] == CardFor(response.route.ordered[i], i, show)
    ensures r.cta.url == response.route.gmapsUrl
    ensures r.cta.text == "Abrir ruta caminando" <==> response.route.mode == Walking
    ensures r.cta.text == "Abrir ruta en auto" <==> response.route.mode == Driving
  {
    var cityName := CityName(response.cityId);
    var title := if response.uiCopy.title != "" then response.uiCopy.title
                 else "Plan " + GetVibeDisplayText(response.vibeCode) + " en " + cityName;
    var subtitle := if response.uiCopy.subtitle != "" then response.uiCopy.subtitle
                    else NatToString(|response.selection|) + SubtitleTail;
    var ordered := response.route.ordered;
    var cards := seq(|ordered|, i requires 0 <= i < |ordered| => CardFor(ordered[i], i, show));
    assert |"Abrir ruta caminando"| != |"Abrir ruta en auto"|;
    var text := match response.route.mode
      case Walking => "Abrir ruta caminando"
      case Driving => "Abrir ruta en auto";
    Presentation(Header(title, subtitle, response.vibeCode), cards, Cta(response.route.gmapsUrl, text))
  }

  /** The cards are numbered 1, 2, ... in route order, and each card shows
      its stop's name and, when it has them, its coordinates. */
  lemma CardsFollowRoute(response: Response, show: Show)
    ensures var r := PresentForUI(response, show);
            (forall i :: 0 <= i < |r.cards| ==> r.cards[i].order == i + 1) &&
            (forall i, j :: 0 <= i < j < |r.cards| ==> r.cards[i].order < r.cards[j].order) &&
            (forall i :: 0 <= i < |r.cards| ==> r.cards[i].title == response.route.ordered[i].name) &&
            (forall i :: 0 <= i < |r.cards| ==> (r.cards[i].coords.Some? <==> HasCoords(response.route.ordered[i])))
  {
  }

  /** The default subtitle begins with the number of selected places,
      which reads back from its first word. */
  lemma SubtitleCountReads(response: Response, show: Show)
    requires response.uiCopy.subtitle == ""
    ensures DecimalValue(SplitOn(PresentForUI(response, show).header.subtitle, ' ')[0]) == |response.selection|
  {
    var digits := NatToString(|response.selection|);
    var words := SubtitleWords;
    assert digits + SubtitleTail == digits + [' '] + words;
    assert ' ' !in digits by {
      forall i | 0 <= i < |digits| ensures digits[i] != ' ' {
        assert '0' <= digits[i] <= '9';
      }
    }
    IndexOfAfter(digits, words, ' ');
    assert (digits + [' '] + words)[..|digits|] == digits;
  }
}
