/** lib/suggestion-service.ts: suggestion chips built from a city's places
    (a category chip for every category with two or more places, a vibe
    chip for every known vibe two or more places carry, fixed combination
    chips), ranked vibes first, and filtered by what the user types. */
module Suggestions {
  import opened Wrappers
  import opened Seqs
  import opened StableSort
  import opened Text
  import opened Places

  /** The `category` field of `SmartSuggestion`. */
  datatype Kind = CategoryKind | VibeKind | ComboKind

  datatype Suggestion = Suggestion(text: string, kind: Kind, vibes: seq<string>)

  /** `getCategoryName`'s table. */
  const CategoryNames: map<string, string> := map[
    "cafe" := "cafés",
    "museum" := "museos",
    "park" := "parques",
    "plaza" := "plazas",
    "landmark" := "lugares icónicos",
    "district" := "barrios",
    "walkway" := "paseos",
    "zoo" := "zoológicos",
    "edificio histórico" := "arquitectura histórica",
    "estadio" := "estadios",
    "arena" := "arenas",
    "mirador" := "miradores",
    "área natural" := "naturaleza",
    "centro cultural/teatro" := "cultura y teatro",
    "monumento" := "monumentos",
    "auditorio/mixto" := "eventos y música",
    "parque natural" := "parques naturales",
    "museo/teatro" := "museos y teatro",
    "sitio arqueológico/museo" := "sitios arqueológicos",
    "zona de bares/antros" := "vida nocturna",
    "food hall" := "mercados gastronómicos",
    "paseo en trajinera" := "paseos acuáticos"]

  /** `getCategoryName`: the plural Spanish name of a known category, the
      category itself otherwise. */
  function GetCategoryName(category: string): (r: string)
    ensures category in CategoryNames ==> r == CategoryNames[category]
    ensures category !in CategoryNames ==> r == category
  {
    if category in CategoryNames && CategoryNames[category] != "" then CategoryNames[category] else category
  }

  /** The categories of the places in order of first occurrence: the keys
      of `categoryGroups` in insertion order. */
  function Categories(places: seq<Place>): (cats: seq<string>)
    ensures forall c :: c in cats <==> exists p :: p in places && p.category == c
    ensures forall i, j :: 0 <= i < j < |cats| ==> cats[i] != cats[j]
    ensures forall i, j, k :: 0 <= i < j < |cats| && 0 <= k < |places| && places[k].category == cats[j] ==>
              exists m :: 0 <= m < k && places[m].category == cats[i]
  {
    var all := seq(|places|, i requires 0 <= i < |places| => places[i].category);
    assert forall p :: p in places ==> p.category in all by {
      forall p | p in places ensures p.category in all {
        var i :| 0 <= i < |places| && places[i] == p;
        assert all[i] == p.category;
      }
    }
    var cats := Dedup(all);
    DedupFirstOrder(all);
    forall i, j, k | 0 <= i < j < |cats| && 0 <= k < |places| && places[k].category == cats[j]
      ensures exists m :: 0 <= m < k && places[m].category == cats[i]
    {
      assert all[k] == cats[j];
      var m :| 0 <= m < k && all[..k][m] == cats[i];
      assert places[m].category == all[m];
    }
    cats
  }

  /** The vibe lists of the places, in order. */
  function VibeLists(places: seq<Place>): (lists: seq<seq<string>>)
    ensures |lists| == |places| && forall i :: 0 <= i < |places| ==> lists[i] == places[i].vibes
  {
    seq(|places|, i requires 0 <= i < |places| => places[i].vibes)
  }

  /** Every vibe of every place, in order, repeats included: what
      `vibeGroups` receives, one push per occurrence. */
  function VibesOf(places: seq<Place>): (vs: seq<string>)
    ensures forall v :: v in vs <==> exists p :: p in places && v in p.vibes
  {
    var lists := VibeLists(places);
    assert forall p :: p in places ==> exists i :: 0 <= i < |lists| && lists[i] == p.vibes by {
      forall p | p in places ensures exists i :: 0 <= i < |lists| && lists[i] == p.vibes {
        var i :| 0 <= i < |places| && places[i] == p;
        assert lists[i] == p.vibes;
      }
    }
    Flatten(lists)
  }

  /** The vibes come place by place, each place's vibes in their own order:
      one place contributes its list, and a split of the places splits the
      vibes the same way. */
  lemma VibesOfOrder(a: seq<Place>, b: seq<Place>, p: Place)
    ensures VibesOf([p]) == p.vibes
    ensures VibesOf(a + b) == VibesOf(a) + VibesOf(b)
  {
    assert VibeLists([p]) == [p.vibes];
    FlattenSingle(p.vibes);
    assert VibeLists(a + b) == VibeLists(a) + VibeLists(b);
    FlattenConcat(VibeLists(a), VibeLists(b));
  }

  /** The chip of one category: "explorar" and its name, and the distinct
      vibes of its places. */
  function CategorySuggestion(places: seq<Place>, c: string): (s: Suggestion)
    ensures s.kind == CategoryKind && s.text == "explorar " + GetCategoryName(c)
    ensures forall v :: v in s.vibes <==> exists p :: p in places && p.category == c && v in p.vibes
    ensures forall i, j :: 0 <= i < j < |s.vibes| ==> s.vibes[i] != s.vibes[j]
    ensures InFirstOccurrenceOrder(s.vibes, VibesOf(Filter(places, InCategory(c))))
  {
    var group := Filter(places, InCategory(c));
    FilterMembers(places, InCategory(c));
    DedupFirstOrder(VibesOf(group));
    Suggestion("explorar " + GetCategoryName(c), CategoryKind, Dedup(VibesOf(group)))
  }

  /** Every chip of `r` is of the given kind. */
  predicate AllKind(r: seq<Suggestion>, kind: Kind) {
    forall i :: 0 <= i < |r| ==> r[i].kind == kind
  }

  lemma AllKindConcat(a: seq<Suggestion>, b: seq<Suggestion>, kind: Kind)
    requires AllKind(a, kind) && AllKind(b, kind)
    ensures AllKind(a + b, kind)
  {
    forall i | 0 <= i < |a + b| ensures (a + b)[i].kind == kind {
      if i >= |a| {
        assert (a + b)[i] == b[i - |a|];
      }
    }
  }

  /** The priority of every chip of one kind. */
  lemma KindKeys(r: seq<Suggestion>, kind: Kind)
    requires AllKind(r, kind)
    ensures forall i :: 0 <= i < |r| ==> PriorityKey(r[i]) == PriorityKey(Suggestion("", kind, []))
  {
  }

  /** The chip of every given category, in order, before the test for two
      places. */
  function CategoryChips(places: seq<Place>, cats: seq<string>): (r: seq<Suggestion>)
    ensures |r| == |cats| && forall i :: 0 <= i < |cats| ==> r[i] == CategorySuggestion(places, cats[i])
  {
    seq(|cats|, i requires 0 <= i < |cats| => CategorySuggestion(places, cats[i]))
  }

  /** The category chips for the given categories, in their order. */
  function CategorySuggestionsFor(places: seq<Place>, cats: seq<string>): (r: seq<Suggestion>)
    ensures AllKind(r, CategoryKind)
    ensures forall s :: s in r <==>
              exists c :: c in cats && |Filter(places, InCategory(c))| >= 2 && s == CategorySuggestion(places, c)
    ensures IsSubsequence(r, CategoryChips(places, cats))
    decreases |cats|
  {
    if |cats| == 0 then []
    else
      var rest := CategorySuggestionsFor(places, cats[1..]);
      assert forall c :: c in cats <==> c == cats[0] || c in cats[1..];
      assert CategoryChips(places, cats)[1..] == CategoryChips(places, cats[1..]);
      if |Filter(places, InCategory(cats[0]))| >= 2 then
        var r := [CategorySuggestion(places, cats[0])] + rest;
        AllKindConcat([CategorySuggestion(places, cats[0])], rest, CategoryKind);
        assert r[1..] == rest;
        r
      else rest
  }

  /** The vibe chip texts. */
  const VibeTexts: map<string, string> := map[
    "chill-cafe" := "plan tranqui con café",
    "arte-cultura" := "arte y cultura",
    "BELLAQUEO" := "noche de fiesta urbana",
    "STREET_FOOD" := "comida callejera auténtica",
    "LIVE_MUSIC" := "música en vivo",
    "MIRADORES_FOTOS" := "lugares para fotos épicas",
    "DEPORTES_JUEGO" := "actividades deportivas",
    "FAMILY_KIDS" := "plan familiar con niños",
    "nightlife" := "vida nocturna",
    "shopping" := "ir de compras",
    "nature-outdoor" := "naturaleza y aire libre",
    "food-gourmet" := "experiencia gastronómica",
    "historic-architecture" := "arquitectura e historia",
    "local-authentic" := "experiencias locales auténticas"]

  /** Every vibe with a chip text has a non-empty one, so the source's
      truthiness test on the text only asks whether the vibe has one. */
  lemma VibeTextsNonEmpty()
    ensures forall v :: v in VibeTexts ==> VibeTexts[v] != ""
  {
  }

  /** How many entries `vibeGroups` holds for `v`. */
  function VibeCount(places: seq<Place>, v: string): nat {
    multiset(VibesOf(places))[v]
  }

  /** `vibeTexts[vibe]`, with the falsy `undefined` of a missing key read
      as the empty text. */
  function VibeText(v: string): string {
    if v in VibeTexts then VibeTexts[v] else ""
  }

  /** A vibe chip for every given vibe, in order, before the count and text
      tests. */
  function VibeChips(vibes: seq<string>): (r: seq<Suggestion>)
    ensures |r| == |vibes| && forall i :: 0 <= i < |vibes| ==> r[i] == Suggestion(VibeText(vibes[i]), VibeKind, [vibes[i]])
  {
    seq(|vibes|, i requires 0 <= i < |vibes| => Suggestion(VibeText(vibes[i]), VibeKind, [vibes[i]]))
  }

  /** The vibe chips for the given vibes, in their order: a vibe with a
      text, carried at least twice. */
  function VibeSuggestionsFor(places: seq<Place>, vibes: seq<string>): (r: seq<Suggestion>)
    ensures AllKind(r, VibeKind)
    ensures forall s :: s in r <==>
              exists v :: v in vibes && VibeCount(places, v) >= 2 && v in VibeTexts &&
                          s == Suggestion(VibeTexts[v], VibeKind, [v])
    ensures IsSubsequence(r, VibeChips(vibes))
    decreases |vibes|
  {
    if |vibes| == 0 then []
    else
      var v := vibes[0];
      var rest := VibeSuggestionsFor(places, vibes[1..]);
      assert forall w :: w in vibes <==> w == v || w in vibes[1..];
      assert VibeChips(vibes)[1..] == VibeChips(vibes[1..]);
      VibeTextsNonEmpty();
      if VibeCount(places, v) >= 2 && v in VibeTexts && VibeTexts[v] != "" then
        var r := [Suggestion(VibeTexts[v], VibeKind, [v])] + rest;
        AllKindConcat([Suggestion(VibeTexts[v], VibeKind, [v])], rest, VibeKind);
        assert r[1..] == rest;
        r
      else rest
  }

  /** A combination chip, when both of its vibes occur on some place. */
  function Combo(places: seq<Place>, v1: string, v2: string, text: string): (r: seq<Suggestion>)
    ensures |r| <= 1
    ensures |r| == 1 <==> (exists p :: p in places && v1 in p.vibes) && (exists p :: p in places && v2 in p.vibes)
    ensures |r| == 1 ==> r[0] == Suggestion(text, ComboKind, [v1, v2])
    ensures AllKind(r, ComboKind)
  {
    var all := VibesOf(places);
    if v1 in all && v2 in all then [Suggestion(text, ComboKind, [v1, v2])] else []
  }

  function ComboSuggestions(places: seq<Place>): (r: seq<Suggestion>)
    ensures AllKind(r, ComboKind)
  {
    var a := Combo(places, "chill-cafe", "MIRADORES_FOTOS", "café y lugares para fotos");
    var b := Combo(places, "arte-cultura", "FAMILY_KIDS", "cultura familiar");
    var c := Combo(places, "LIVE_MUSIC", "BELLAQUEO", "música y fiesta");
    AllKindConcat(a, b, ComboKind);
    AllKindConcat(a + b, c, ComboKind);
    a + b + c
  }

  function CategorySuggestions(places: seq<Place>): seq<Suggestion> {
    CategorySuggestionsFor(places, Categories(places))
  }

  function VibeSuggestions(places: seq<Place>): seq<Suggestion> {
    VibeSuggestionsFor(places, Dedup(VibesOf(places)))
  }

  /** `(a, b) => priority[b.category] - priority[a.category]` as an
      ascending key: vibes 3, combos 2, categories 1, negated. */
  function PriorityKey(s: Suggestion): real {
    match s.kind
    case VibeKind => -3.0
    case ComboKind => -2.0
    case CategoryKind => -1.0
  }

  /** `generateSmartSuggestions` on the city's places: the chips in the
      order they are pushed, sorted by priority, at most 8. */
  function GenerateSmartSuggestions(places: seq<Place>): (r: seq<Suggestion>)
    ensures |r| <= 8
  {
    var pushed := CategorySuggestions(places) + VibeSuggestions(places) + ComboSuggestions(places);
    Take(SortBy(pushed, PriorityKey), 8)
  }

  /** The stable sort puts every vibe chip first, then the combination
      chips, then the category chips, each group in its pushed order. */
  lemma SuggestionOrder(places: seq<Place>)
    ensures GenerateSmartSuggestions(places) ==
            Take(VibeSuggestions(places) + ComboSuggestions(places) + CategorySuggestions(places), 8)
  {
    var vibes := VibeSuggestions(places);
    var combos := ComboSuggestions(places);
    var cats := CategorySuggestions(places);
    KindKeys(vibes, VibeKind);
    KindKeys(combos, ComboKind);
    KindKeys(cats, CategoryKind);
    SortThreeBlocks(vibes, combos, cats, PriorityKey, -3.0, -2.0, -1.0);
  }

  /** Some term occurs in the lower-cased text or in a lower-cased vibe. */
  predicate TermMatches(s: Suggestion, term: string) {
    Contains(Lower(s.text), term) || exists j :: 0 <= j < |s.vibes| && Contains(Lower(s.vibes[j]), term)
  }

  /** `suggestion => searchTerms.some(...)`. */
  function MatchesAny(terms: seq<string>): Suggestion -> bool {
    (s: Suggestion) => exists k :: 0 <= k < |terms| && TermMatches(s, terms[k])
  }

  /** `input.toLowerCase().split(" ")`. */
  function SearchTerms(input: string): seq<string> {
    SplitOn(Lower(input), ' ')
  }

  /** `filterSuggestionsByInput`: all chips for blank input, otherwise the
      chips some search term matches, in their order. */
  function FilterSuggestionsByInput(suggestions: seq<Suggestion>, input: string): (r: seq<Suggestion>)
    ensures IsBlank(input) ==> r == suggestions
    ensures multiset(r) <= multiset(suggestions)
    ensures IsSubsequence(r, suggestions)
    ensures forall s :: s in r <==> s in suggestions && (IsBlank(input) || MatchesAny(SearchTerms(input))(s))
    ensures forall s :: multiset(r)[s] ==
              if IsBlank(input) || MatchesAny(SearchTerms(input))(s) then multiset(suggestions)[s] else 0
  {
    TrimEmptyIffBlank(input);
    FilterSubMultiset(suggestions, MatchesAny(SearchTerms(input)));
    FilterMembers(suggestions, MatchesAny(SearchTerms(input)));
    FilterSubsequence(suggestions, MatchesAny(SearchTerms(input)));
    SubsequenceRefl(suggestions);
    forall s ensures multiset(Filter(suggestions, MatchesAny(SearchTerms(input))))[s] ==
                     if MatchesAny(SearchTerms(input))(s) then multiset(suggestions)[s] else 0 {
      FilterCount(suggestions, MatchesAny(SearchTerms(input)), s);
    }
    if Trim(input) == "" then suggestions
    else Filter(suggestions, MatchesAny(SearchTerms(input)))
  }

  /** An empty search term, which every chip contains, filters nothing
      out. */
  lemma EmptyTermKeepsAll(suggestions: seq<Suggestion>, input: string)
    requires "" in SearchTerms(input)
    ensures FilterSuggestionsByInput(suggestions, input) == suggestions
  {
    var terms := SearchTerms(input);
    var k :| 0 <= k < |terms| && terms[k] == "";
    forall i | 0 <= i < |suggestions| ensures MatchesAny(terms)(suggestions[i]) {
      ContainsEmpty(Lower(suggestions[i].text));
      assert TermMatches(suggestions[i], terms[k]);
    }
    FilterKeepsAll(suggestions, MatchesAny(terms));
  }

  /** A trailing space splits off an empty last term, so nothing is
      filtered out. */
  lemma TrailingSpaceKeepsAll(suggestions: seq<Suggestion>, input: string)
    requires |input| > 0 && input[|input| - 1] == ' '
    ensures FilterSuggestionsByInput(suggestions, input) == suggestions
  {
    var terms := SearchTerms(input);
    SplitOnTrailing(Lower(input), ' ');
    assert terms[|terms| - 1] == "";
    EmptyTermKeepsAll(suggestions, input);
  }

  /** So does a leading space, which splits off an empty first term. */
  lemma LeadingSpaceKeepsAll(suggestions: seq<Suggestion>, input: string)
    requires |input| > 0 && input[0] == ' '
    ensures FilterSuggestionsByInput(suggestions, input) == suggestions
  {
    var lowered := Lower(input);
    assert IndexOf(lowered, ' ') == Some(0);
    assert SearchTerms(input)[0] == lowered[..0];
    EmptyTermKeepsAll(suggestions, input);
  }
}
