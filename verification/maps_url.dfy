/** `buildGoogleMapsUrl`: a Google Maps directions link through the places in
    order, and a reader for such links that recovers what was put in. */
module MapsUrl {
  import opened Wrappers
  import opened Text
  import opened Uri
  import opened Places

  const BaseUrl: string := "https://www.google.com/maps/dir/?api=1"

  /** How one place is written in the link: `lat,lng` when both coordinates
      are known, the URI-encoded address otherwise. */
  function Token(p: Place, show: Show): (t: string)
    ensures '&' !in t && '|' !in t
    ensures HasCoords(p) ==> t == LatLngText(p, show)
    ensures !HasCoords(p) ==> DecodeBytes(t) == Some(Utf8Bytes(p.address))
  {
    if HasCoords(p) then LatLngText(p, show)
    else
      DecodeEncode(p.address);
      EncodedAvoids(p.address);
      EncodeUriComponent(p.address)
  }

  /** Encoding escapes both separators a link uses. */
  lemma EncodedAvoids(s: string)
    ensures '&' !in EncodeUriComponent(s) && '|' !in EncodeUriComponent(s)
  {
    var t := EncodeUriComponent(s);
    forall i | 0 <= i < |t| ensures t[i] != '&' && t[i] != '|' {
      assert IsEncodedChar(t[i]);
    }
  }

  /** The tokens of a list of places, in order. */
  function Tokens(places: seq<Place>, show: Show): (r: seq<string>)
    ensures |r| == |places|
    ensures forall i :: 0 <= i < |places| ==> r[i] == Token(places[i], show)
  {
    seq(|places|, i requires 0 <= i < |places| => Token(places[i], show))
  }

  /** `buildGoogleMapsUrl(places, mode)`. The source writes the link as a
      template `${baseUrl}&origin=${o}&destination=${d}...&travelmode=${mode}`;
      here it is the same text written as its parameters joined by `&`. */
  function BuildGoogleMapsUrl(places: seq<Place>, mode: Mode, show: Show): (url: string)
    ensures url == "" <==> |places| == 0
    ensures |places| > 0 ==> StartsWith(url, BaseUrl)
  {
    if |places| == 0 then ""
    else if |places| == 1 then
      var location := Token(places[0], show);
      var url := Join(LinkParts(location, location, [], ModeName(mode)), "&");
      JoinStartsWith(LinkParts(location, location, [], ModeName(mode)), "&");
      url
    else
      var originParam := Token(places[0], show);
      var destinationParam := Token(places[|places| - 1], show);
      var waypoints := places[1..|places| - 1];
      var parts := LinkParts(originParam, destinationParam, Tokens(waypoints, show), ModeName(mode));
      JoinStartsWith(parts, "&");
      Join(parts, "&")
  }

  /** The parameters of a link, in the order `buildGoogleMapsUrl` writes
      them; the waypoints parameter is present only when there are
      waypoints, joined by `|`. */
  function LinkParts(o: string, d: string, ws: seq<string>, m: string): (parts: seq<string>)
    ensures |parts| > 0 && parts[0] == BaseUrl
  {
    if |ws| == 0 then [BaseUrl, "origin=" + o, "destination=" + d, "travelmode=" + m]
    else [BaseUrl, "origin=" + o, "destination=" + d, "waypoints=" + Join(ws, "|"), "travelmode=" + m]
  }

  /** A joined list starts with its first piece. */
  lemma JoinStartsWith(xs: seq<string>, sep: string)
    requires |xs| > 0
    ensures StartsWith(Join(xs, sep), xs[0])
  {
    if |xs| > 1 {
      assert Join(xs, sep) == xs[0] + (sep + Join(xs[1..], sep));
    }
  }

  /** What a directions link says: where it starts, where it ends, the stops
      in between and the travel mode. */
  datatype Directions = Directions(origin: string, destination: string, waypoints: seq<string>, travelMode: string)

  /** `s` without the prefix `p`, when `s` starts with `p`. */
  function StripPrefix(s: string, p: string): (r: Option<string>)
    ensures r.Some? <==> StartsWith(s, p)
    ensures r.Some? ==> s == p + r.value
  {
    if StartsWith(s, p) then Some(s[|p|..]) else None
  }

  lemma StripPrefixConcat(p: string, x: string)
    ensures StripPrefix(p + x, p) == Some(x)
  {
    assert (p + x)[..|p|] == p;
    assert (p + x)[|p|..] == x;
  }

  /** Reads a directions link of the shape `BuildGoogleMapsUrl` writes. */
  function ParseDirections(url: string): Option<Directions> {
    var parts := SplitOn(url, '&');
    var n := |parts|;
    if (n != 4 && n != 5) || parts[0] != BaseUrl then None
    else
      var origin := StripPrefix(parts[1], "origin=");
      var destination := StripPrefix(parts[2], "destination=");
      var waypoints := if n == 5 then StripPrefix(parts[3], "waypoints=") else Some("");
      var travelMode := StripPrefix(parts[n - 1], "travelmode=");
      if origin.None? || destination.None? || waypoints.None? || travelMode.None? then None
      else
        var stops := if n == 5 then SplitOn(waypoints.value, '|') else [];
        Some(Directions(origin.value, destination.value, stops, travelMode.value))
  }

  /** Reading a link back gives the first place's token as origin, the last
      place's as destination, the tokens of the places in between as
      waypoints, and the mode: for one place origin and destination
      coincide, and for two there are no waypoints. */
  lemma ParseBuild(places: seq<Place>, mode: Mode, show: Show)
    requires |places| > 0
    ensures ParseDirections(BuildGoogleMapsUrl(places, mode, show)) ==
            Some(Directions(Token(places[0], show), Token(places[|places| - 1], show),
                            Waypoints(places, show), ModeName(mode)))
  {
    BuildIsJoin(places, mode, show);
    ModeNameAvoids(mode);
    ParseJoined(Token(places[0], show), Token(places[|places| - 1], show), Waypoints(places, show), ModeName(mode));
  }

  /** Every non-empty link is the parameters of its end tokens, waypoints
      and mode joined by `&`. */
  lemma BuildIsJoin(places: seq<Place>, mode: Mode, show: Show)
    requires |places| > 0
    ensures BuildGoogleMapsUrl(places, mode, show) ==
            Join(LinkParts(Token(places[0], show), Token(places[|places| - 1], show), Waypoints(places, show), ModeName(mode)), "&")
  {
    if |places| == 2 {
      assert Tokens(places[1..|places| - 1], show) == [];
    }
  }

  lemma ModeNameAvoids(mode: Mode)
    ensures '&' !in ModeName(mode)
  {
    match mode
    case Walking => assert ModeName(mode) == "walking";
    case Driving => assert ModeName(mode) == "driving";
  }

  /** The tokens of the places strictly between the first and the last. */
  function Waypoints(places: seq<Place>, show: Show): (ws: seq<string>)
    ensures |places| <= 2 ==> ws == []
    ensures forall k :: 0 <= k < |ws| ==> '&' !in ws[k] && '|' !in ws[k]
  {
    if |places| <= 2 then [] else Tokens(places[1..|places| - 1], show)
  }

  /** Reading the parameters joined by `&` gives them back. */
  lemma ParseJoined(o: string, d: string, ws: seq<string>, m: string)
    requires '&' !in o && '&' !in d && '&' !in m
    requires forall k :: 0 <= k < |ws| ==> '&' !in ws[k] && '|' !in ws[k]
    ensures ParseDirections(Join(LinkParts(o, d, ws, m), "&")) == Some(Directions(o, d, ws, m))
  {
    var parts := LinkParts(o, d, ws, m);
    PartsAvoidAmp(o, d, ws, m);
    SplitJoin(parts, '&');
    ParseParts(o, d, ws, m);
  }

  /** No parameter of a link holds `&`. */
  lemma PartsAvoidAmp(o: string, d: string, ws: seq<string>, m: string)
    requires '&' !in o && '&' !in d && '&' !in m
    requires forall k :: 0 <= k < |ws| ==> '&' !in ws[k]
    ensures forall k :: 0 <= k < |LinkParts(o, d, ws, m)| ==> '&' !in LinkParts(o, d, ws, m)[k]
  {
    ParamNamesAvoid();
    NoSepConcat("origin=", o, '&');
    NoSepConcat("destination=", d, '&');
    NoSepConcat("travelmode=", m, '&');
    if |ws| > 0 {
      JoinAvoids(ws, "|", '&');
      NoSepConcat("waypoints=", Join(ws, "|"), '&');
    }
  }

  lemma ParamNamesAvoid()
    ensures '&' !in BaseUrl && '&' !in "origin=" && '&' !in "destination=" && '&' !in "travelmode=" && '&' !in "waypoints="
  {
  }

  /** Reading a link whose `&`-separated pieces are the given parameters. */
  lemma ParseParts(o: string, d: string, ws: seq<string>, m: string)
    requires forall k :: 0 <= k < |ws| ==> '|' !in ws[k]
    requires SplitOn(Join(LinkParts(o, d, ws, m), "&"), '&') == LinkParts(o, d, ws, m)
    ensures ParseDirections(Join(LinkParts(o, d, ws, m), "&")) == Some(Directions(o, d, ws, m))
  {
    StripPrefixConcat("origin=", o);
    StripPrefixConcat("destination=", d);
    StripPrefixConcat("travelmode=", m);
    if |ws| > 0 {
      WaypointsRead(ws);
      ParseFive(Join(LinkParts(o, d, ws, m), "&"), LinkParts(o, d, ws, m));
    } else {
      ParseFour(Join(LinkParts(o, d, ws, m), "&"), LinkParts(o, d, ws, m));
    }
  }

  /** A link of four parameters: no waypoints. */
  lemma ParseFour(url: string, parts: seq<string>)
    requires SplitOn(url, '&') == parts && |parts| == 4 && parts[0] == BaseUrl
    requires StripPrefix(parts[1], "origin=").Some? && StripPrefix(parts[2], "destination=").Some?
    requires StripPrefix(parts[3], "travelmode=").Some?
    ensures ParseDirections(url) == Some(Directions(StripPrefix(parts[1], "origin=").value,
              StripPrefix(parts[2], "destination=").value, [], StripPrefix(parts[3], "travelmode=").value))
  {
  }

  /** A link of five parameters: the fourth holds the waypoints. */
  lemma ParseFive(url: string, parts: seq<string>)
    requires SplitOn(url, '&') == parts && |parts| == 5 && parts[0] == BaseUrl
    requires StripPrefix(parts[1], "origin=").Some? && StripPrefix(parts[2], "destination=").Some?
    requires StripPrefix(parts[3], "waypoints=").Some? && StripPrefix(parts[4], "travelmode=").Some?
    ensures ParseDirections(url) == Some(Directions(StripPrefix(parts[1], "origin=").value,
              StripPrefix(parts[2], "destination=").value,
              SplitOn(StripPrefix(parts[3], "waypoints=").value, '|'), StripPrefix(parts[4], "travelmode=").value))
  {
  }

  /** The waypoints parameter reads back as the list it was joined from. */
  lemma WaypointsRead(ws: seq<string>)
    requires |ws| > 0
    requires forall k :: 0 <= k < |ws| ==> '|' !in ws[k]
    ensures StripPrefix("waypoints=" + Join(ws, "|"), "waypoints=") == Some(Join(ws, "|"))
    ensures SplitOn(Join(ws, "|"), '|') == ws
  {
    StripPrefixConcat("waypoints=", Join(ws, "|"));
    SplitJoin(ws, '|');
  }

  lemma NoSepConcat(a: string, b: string, c: char)
    requires c !in a && c !in b
    ensures c !in a + b
  {
  }

  /** A joined list holds no character that is absent from its pieces and
      from the separator. */
  lemma {:induction false} JoinAvoids(xs: seq<string>, sep: string, c: char)
    requires c !in sep
    requires forall k :: 0 <= k < |xs| ==> c !in xs[k]
    ensures c !in Join(xs, sep)
    decreases |xs|
  {
    if |xs| > 1 {
      JoinAvoids(xs[1..], sep, c);
    }
  }
}
