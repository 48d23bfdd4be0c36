/** lib/preview-service.ts: the live preview under the text box, which
    scores a city's places by how many words of the typed text occur in
    them and lists the best ones first. */
module Preview {
  import opened Wrappers
  import opened Seqs
  import opened StableSort
  import opened Text
  import opened Places

  /** `{ ...place, matchScore }`. */
  datatype Scored = Scored(place: Place, matchScore: nat)

  /** `[name, category, address, description || ""].join(" ").toLowerCase()`. */
  function SearchableText(p: Place): string {
    Lower(Join([p.name, p.category, p.address, p.description], " "))
  }

  /** `vibeText.toLowerCase().split(/\s+/)`. */
  function VibeTerms(vibeText: string): seq<string> {
    SplitWs(Lower(vibeText))
  }

  /** `term => searchableText.includes(term)`. */
  function OccursIn(text: string): string -> bool {
    term => Contains(text, term)
  }

  /** The `reduce` over the terms, from an accumulated `score`: one point
      per term that occurs in the text. */
  function CountFrom(terms: seq<string>, text: string, score: nat): (n: nat)
    ensures n == score + |Filter(terms, OccursIn(text))|
    decreases |terms|
  {
    if |terms| == 0 then score
    else
      FilterCons(terms[0], terms[1..], OccursIn(text));
      assert terms == [terms[0]] + terms[1..];
      CountFrom(terms[1..], text, if Contains(text, terms[0]) then score + 1 else score)
  }

  /** `matchScore`: how many of the terms, repeats counted, occur in the
      text. */
  function MatchScore(terms: seq<string>, text: string): (n: nat)
    ensures n == |Filter(terms, OccursIn(text))| && n <= |terms|
  {
    CountFrom(terms, text, 0)
  }

  /** The score of one place. */
  function ScoreOf(terms: seq<string>, p: Place): nat {
    MatchScore(terms, SearchableText(p))
  }

  /** The score of each place, as a function value. */
  function ScoreFn(terms: seq<string>): Place -> nat {
    p => ScoreOf(terms, p)
  }

  /** The places a score function `g` gives a positive score. */
  function PositiveUnder(g: Place -> nat): Place -> bool {
    p => g(p) > 0
  }

  /** The places the `if (matchScore > 0)` test lets through. */
  function ScoresPositive(terms: seq<string>): Place -> bool {
    PositiveUnder(ScoreFn(terms))
  }

  /** `r` pairs each of the places `f`, in order, with its score under `g`. */
  predicate PairedInOrder(r: seq<Scored>, f: seq<Place>, g: Place -> nat) {
    |r| == |f| && forall k :: 0 <= k < |r| ==> r[k] == Scored(f[k], g(f[k]))
  }

  /** The `for` loop: every place with a positive score, with its score,
      in the city's order. */
  function ScoreAll(places: seq<Place>, terms: seq<string>): (r: seq<Scored>)
    ensures |r| <= |places|
    ensures var f := Filter(places, ScoresPositive(terms));
            |r| == |f| && forall k :: 0 <= k < |r| ==> r[k] == Scored(f[k], ScoreOf(terms, f[k]))
    ensures forall x :: x in r ==> x.place in places && 0 < x.matchScore == ScoreOf(terms, x.place)
    ensures forall k :: 0 <= k < |places| ==>
              (ScoreOf(terms, places[k]) > 0 <==> Scored(places[k], ScoreOf(terms, places[k])) in r)
    ensures (forall k :: 0 <= k < |places| ==> ScoreOf(terms, places[k]) > 0) ==> |r| == |places|
    decreases |places|
  {
    if |places| == 0 then []
    else
      var g := ScoreFn(terms);
      var p := places[0];
      var score := ScoreOf(terms, p);
      var rest := ScoreAll(places[1..], terms);
      var r := if score > 0 then [Scored(p, score)] + rest else rest;
      PairedCons(p, places[1..], g, rest);
      assert places == [p] + places[1..];
      PairedSound(places, g, r);
      PairedComplete(places, g, r);
      PairedAll(places, g, r);
      r
  }

  /** One step of the loop keeps the entries in the city's order. */
  lemma PairedCons(p: Place, tail: seq<Place>, g: Place -> nat, rest: seq<Scored>)
    requires PairedInOrder(rest, Filter(tail, PositiveUnder(g)), g)
    ensures PairedInOrder(if g(p) > 0 then [Scored(p, g(p))] + rest else rest,
                          Filter([p] + tail, PositiveUnder(g)), g)
  {
    FilterCons(p, tail, PositiveUnder(g));
  }

  /** Every entry of the ordered pairing is a place with its positive score. */
  lemma PairedSound(places: seq<Place>, g: Place -> nat, r: seq<Scored>)
    requires PairedInOrder(r, Filter(places, PositiveUnder(g)), g)
    ensures forall x :: x in r ==> x.place in places && 0 < x.matchScore == g(x.place)
  {
    var f := Filter(places, PositiveUnder(g));
    forall x | x in r ensures x.place in places && 0 < x.matchScore == g(x.place) {
      var k :| 0 <= k < |r| && r[k] == x;
      FilterMember(places, PositiveUnder(g), f[k]);
    }
  }

  /** A place is paired with its score exactly when that score is positive. */
  lemma PairedComplete(places: seq<Place>, g: Place -> nat, r: seq<Scored>)
    requires PairedInOrder(r, Filter(places, PositiveUnder(g)), g)
    ensures forall k :: 0 <= k < |places| ==> (g(places[k]) > 0 <==> Scored(places[k], g(places[k])) in r)
  {
    var f := Filter(places, PositiveUnder(g));
    PairedSound(places, g, r);
    forall k | 0 <= k < |places| ensures g(places[k]) > 0 <==> Scored(places[k], g(places[k])) in r {
      var q := places[k];
      FilterMember(places, PositiveUnder(g), q);
      if g(q) > 0 {
        var j :| 0 <= j < |f| && f[j] == q;
        assert r[j] == Scored(q, g(q));
      }
    }
  }

  /** When every place scores, the pairing covers all of them. */
  lemma PairedAll(places: seq<Place>, g: Place -> nat, r: seq<Scored>)
    requires PairedInOrder(r, Filter(places, PositiveUnder(g)), g)
    ensures (forall k :: 0 <= k < |places| ==> g(places[k]) > 0) ==> |r| == |places|
  {
    if forall k :: 0 <= k < |places| ==> g(places[k]) > 0 {
      FilterKeepsAll(places, PositiveUnder(g));
    }
  }





  /** `(a, b) => b.matchScore - a.matchScore` as an ascending key. */
  function NegScore(s: Scored): real {
    -(s.matchScore as real)
  }

  /** The most results the preview shows. */
  const MaxResults: nat := 20

  /** The sort and `slice(0, 20)`: at most 20 scored places, best first. */
  function Rank(scored: seq<Scored>): (r: seq<Scored>)
    ensures |r| == if |scored| < MaxResults then |scored| else MaxResults
    ensures forall i, j :: 0 <= i < j < |r| ==> r[i].matchScore >= r[j].matchScore
    ensures forall k :: 0 <= k < |r| ==> r[k] in scored
  {
    var sorted := SortBy(scored, NegScore);
    assert |sorted| == |multiset(sorted)| == |scored|;
    SortedDescending(sorted);
    SortByMembers(scored, NegScore);
    Take(sorted, MaxResults)
  }

  /** Ascending `NegScore` is non-increasing score. */
  lemma SortedDescending(s: seq<Scored>)
    requires SortedBy(s, NegScore)
    ensures forall i, j :: 0 <= i < j < |s| ==> s[i].matchScore >= s[j].matchScore
  {
    forall i, j | 0 <= i < j < |s| ensures s[i].matchScore >= s[j].matchScore {
      assert NegScore(s[i]) <= NegScore(s[j]);
    }
  }

  /** `filterPlacesByVibe` on the city's places (`None` for an id the
      dataset does not hold). */
  function FilterPlacesByVibe(city: Option<seq<Place>>, vibeText: string): (r: seq<Scored>)
    ensures city.None? || IsBlank(vibeText) ==> r == []
    ensures |r| <= MaxResults
    ensures forall i, j :: 0 <= i < j < |r| ==> r[i].matchScore >= r[j].matchScore
    ensures city.Some? ==> forall k :: 0 <= k < |r| ==>
              r[k].place in city.value && 0 < r[k].matchScore == ScoreOf(VibeTerms(vibeText), r[k].place)
    ensures city.Some? && !IsBlank(vibeText) ==>
              var n := |Filter(city.value, ScoresPositive(VibeTerms(vibeText)))|;
              |r| == if n < MaxResults then n else MaxResults
  {
    if city.None? || IsBlank(vibeText) then []
    else
      RankedScored(city.value, VibeTerms(vibeText));
      Rank(ScoreAll(city.value, VibeTerms(vibeText)))
  }

  /** Every ranked entry is a place of the city with its positive score. */
  lemma RankedScored(places: seq<Place>, terms: seq<string>)
    ensures var r := Rank(ScoreAll(places, terms));
            forall k :: 0 <= k < |r| ==> r[k].place in places && 0 < r[k].matchScore == ScoreOf(terms, r[k].place)
  {
    var scored := ScoreAll(places, terms);
    var r := Rank(scored);
    forall k | 0 <= k < |r| ensures r[k].place in places && 0 < r[k].matchScore == ScoreOf(terms, r[k].place) {
      assert r[k] in scored;
    }
  }

  /** `s` ranks `scored` by non-increasing score, and entries with equal
      scores keep the order they have in `scored`. */
  ghost predicate StableRanking(s: seq<Scored>, scored: seq<Scored>) {
    SortedBy(s, NegScore) && forall v :: KeyClass(s, NegScore, v) == KeyClass(scored, NegScore, v)
  }

  /** The preview is the first 20 of the one stable ranking of the scored
      places. */
  lemma PreviewIsStableRanking(places: seq<Place>, vibeText: string, s: seq<Scored>)
    requires !IsBlank(vibeText)
    requires StableRanking(s, ScoreAll(places, VibeTerms(vibeText)))
    ensures FilterPlacesByVibe(Some(places), vibeText) == Take(s, MaxResults)
  {
    var scored := ScoreAll(places, VibeTerms(vibeText));
    SortedUnique(s, SortBy(scored, NegScore), NegScore);
  }

  /** Leading whitespace splits off an empty term, which occurs in every
      place, so every place scores and the preview is as long as it can
      be. */
  lemma LeadingSpaceMatchesAll(places: seq<Place>, vibeText: string)
    requires !IsBlank(vibeText) && IsWhitespace(vibeText[0])
    ensures |FilterPlacesByVibe(Some(places), vibeText)| == if |places| < MaxResults then |places| else MaxResults
  {
    LeadingSpaceScoresAll(places, vibeText);
  }

  lemma LeadingSpaceScoresAll(places: seq<Place>, vibeText: string)
    requires |vibeText| > 0 && IsWhitespace(vibeText[0])
    ensures |ScoreAll(places, VibeTerms(vibeText))| == |places|
  {
    var terms := VibeTerms(vibeText);
    SplitWsLeadingSpace(Lower(vibeText));
    forall k | 0 <= k < |places| ensures ScoreOf(terms, places[k]) > 0 {
      ContainsEmpty(SearchableText(places[k]));
      FilterMember(terms, OccursIn(SearchableText(places[k])), terms[0]);
    }
  }

  /** `getTopPreviewPlaces(places, count)`: `places.slice(0, count)`, with
      `count` 3 when it is not given; a negative count drops that many
      places from the end. */
  function GetTopPreviewPlaces(places: seq<Place>, count: Option<int>): (r: seq<Place>)
    ensures r <= places
    ensures count.None? ==> |r| == if |places| < 3 then |places| else 3
    ensures count.Some? && count.value >= 0 ==> |r| == if |places| < count.value then |places| else count.value
    ensures count.Some? && count.value < 0 ==> |r| == if |places| + count.value < 0 then 0 else |places| + count.value
  {
    var c := count.GetOr(3);
    var end := if c >= 0 then (if c < |places| then c else |places|)
               else (if |places| + c < 0 then 0 else |places| + c);
    places[..end]
  }
}
