/** lib/image-utils.ts: the search query and placeholder image link shown
    on a stop's card. */
module ImageUtils {
  import opened Wrappers
  import opened Seqs
  import opened Text
  import opened Uri
  import opened Places
  import opened Utils
  import opened UiPresenter

  /** The regular-expression class `\w`: ASCII letters, digits and `_`. */
  predicate IsWordChar(c: char) {
    ('a' <= c <= 'z') || ('A' <= c <= 'Z') || ('0' <= c <= '9') || c == '_'
  }

  /** What `.replace(/[^\w\s]/g, "")` keeps. */
  predicate IsKept(c: char) {
    IsWordChar(c) || IsWhitespace(c)
  }

  /** The lower-cased title, the lower-cased subtitle up to the first
      " • ", and the lower-cased city name, joined by spaces. */
  function Keywords(card: Card, cityName: string): string {
    Join([Lower(card.title), TextBefore(Lower(card.subtitle), CardSeparator), Lower(cityName)], " ")
  }

  /** No two spaces stand next to each other. */
  predicate SingleSpaced(s: string) {
    forall i :: 0 <= i < |s| - 1 ==> s[i] != ' ' || s[i + 1] != ' '
  }

  /** Every character is a space or a non-whitespace character of `src`. */
  predicate SpacesOrFrom(r: string, src: string) {
    forall i :: 0 <= i < |r| ==> r[i] == ' ' || (!IsWhitespace(r[i]) && r[i] in src)
  }

  /** `.replace(/\s+/g, " ")`: every maximal run of whitespace becomes one
      space; the word characters stay as they were. Equivalently, the text
      is its `\s+`-separated pieces joined by single spaces. */
  function CollapseWs(s: string): (r: string)
    ensures r == Join(SplitWs(s), " ")
    ensures |r| <= |s|
    ensures |s| > 0 ==> |r| > 0
    ensures |r| > 0 ==> (r[0] == ' ' <==> IsWhitespace(s[0]))
    ensures SpacesOrFrom(r, s)
    ensures SingleSpaced(r)
    ensures Filter(r, IsWordChar) == Filter(s, IsWordChar)
    decreases |s|
  {
    if |s| == 0 then ""
    else
      var rest := CollapseWs(s[1..]);
      FilterCons(s[0], s[1..], IsWordChar);
      assert s == [s[0]] + s[1..];
      if IsWhitespace(s[0]) then
        if |rest| > 0 && rest[0] == ' ' then
          SpacesOrFromTail(rest, s);
          rest
        else
          FilterCons(' ', rest, IsWordChar);
          ConsShape(' ', rest, s);
          JoinEmptyHead(SplitWs(s[1..]), " ");
          [' '] + rest
      else
        FilterCons(s[0], rest, IsWordChar);
        ConsShape(s[0], rest, s);
        JoinConsHead(s[0], SplitWs(s[1..]), " ");
        [s[0]] + rest
  }

  /** What holds for the characters of the rest of a text holds for it. */
  lemma SpacesOrFromTail(r: string, s: string)
    requires |s| > 0 && SpacesOrFrom(r, s[1..])
    ensures SpacesOrFrom(r, s)
  {
    forall i | 0 <= i < |r| && r[i] != ' ' ensures r[i] in s {
      assert r[i] in s[1..];
    }
  }

  /** Putting a space before text that does not start with one, or the
      first character of the source before the rest, keeps the shape. */
  lemma ConsShape(c: char, rest: string, s: string)
    requires |s| > 0 && SpacesOrFrom(rest, s[1..]) && SingleSpaced(rest)
    requires c == ' ' || (c == s[0] && !IsWhitespace(c))
    requires c == ' ' ==> |rest| == 0 || rest[0] != ' '
    ensures SpacesOrFrom([c] + rest, s) && SingleSpaced([c] + rest)
  {
    SpacesOrFromTail(rest, s);
    var r := [c] + rest;
    forall i | 1 <= i < |r| ensures r[i] == rest[i - 1] {
    }
  }

  predicate NonEmptyText(w: string) {
    |w| > 0
  }

  /** The words of a text: its non-empty `\s+`-separated pieces, in order. */
  function Words(s: string): seq<string> {
    Filter(SplitWs(s), NonEmptyText)
  }

  /** Collapsing whitespace and trimming leaves the words of the text,
      joined by single spaces. */
  lemma TrimJoinedSplit(s: string)
    ensures Trim(Join(SplitWs(s), " ")) == Join(Words(s), " ")
  {
    var xs := SplitWs(s);
    var n := |xs|;
    SplitWsInterior(s);
    var lo := if xs[0] == "" then 1 else 0;
    var hi := if n > 1 && xs[n - 1] == "" then n - 1 else n;
    if lo >= hi {
      BlankPieces(xs);
    } else {
      TrimmedPieces(xs, lo, hi);
      PaddedWords(xs[..lo], xs[lo..hi], xs[hi..]);
    }
  }

  /** Pieces free of whitespace, non-empty except perhaps the first and the
      last: cut off an empty first and last piece, and what is left is
      non-empty words. */
  lemma TrimmedPieces(xs: seq<string>, lo: nat, hi: nat)
    requires lo < hi <= |xs|
    requires lo == (if xs[0] == "" then 1 else 0)
    requires hi == (if |xs| > 1 && xs[|xs| - 1] == "" then |xs| - 1 else |xs|)
    requires forall k :: 0 < k < |xs| - 1 ==> |xs[k]| > 0
    requires forall k, i :: 0 <= k < |xs| && 0 <= i < |xs[k]| ==> !IsWhitespace(xs[k][i])
    ensures xs == xs[..lo] + xs[lo..hi] + xs[hi..]
    ensures xs[..lo] == [] || xs[..lo] == [""]
    ensures xs[hi..] == [] || xs[hi..] == [""]
    ensures forall k :: 0 <= k < |xs[lo..hi]| ==>
              |xs[lo..hi][k]| > 0 && !IsWhitespace(xs[lo..hi][k][0]) && !IsWhitespace(xs[lo..hi][k][|xs[lo..hi][k]| - 1])
  {
    var core := xs[lo..hi];
    assert xs == xs[..lo] + core + xs[hi..];
    if lo == 1 {
      assert xs[..lo] == [xs[0]];
    }
    if hi < |xs| {
      assert xs[hi..] == [xs[|xs| - 1]];
    }
    forall k | 0 <= k < |core|
      ensures |core[k]| > 0 && !IsWhitespace(core[k][0]) && !IsWhitespace(core[k][|core[k]| - 1])
    {
      assert core[k] == xs[lo + k];
    }
  }

  /** Words between at most one empty piece at each end: joining, trimming
      and dropping the empty pieces agree. */
  lemma PaddedWords(pre: seq<string>, core: seq<string>, post: seq<string>)
    requires |core| > 0
    requires pre == [] || pre == [""]
    requires post == [] || post == [""]
    requires forall k :: 0 <= k < |core| ==>
               |core[k]| > 0 && !IsWhitespace(core[k][0]) && !IsWhitespace(core[k][|core[k]| - 1])
    ensures Trim(Join(pre + core + post, " ")) == Join(Filter(pre + core + post, NonEmptyText), " ")
  {
    WordsAreCore(pre, core, post);
    JoinedCore(pre, core, post);
    JoinWordsEnds(core);
    TrimPadded(Pad(pre == [""]), Join(core, " "), Pad(post == [""]));
  }

  /** Pieces that are all empty, one or two of them, hold no word and join
      to blank text. */
  lemma BlankPieces(xs: seq<string>)
    requires xs == [""] || xs == ["", ""]
    ensures Trim(Join(xs, " ")) == Join(Filter(xs, NonEmptyText), " ")
  {
    if xs == [""] {
      TrimPadded("", "", "");
    } else {
      assert Join(xs, " ") == " ";
      TrimPadded(" ", "", "");
    }
    assert Filter(xs, NonEmptyText) == [];
  }

  /** With possibly empty pieces only at the ends, the words are the pieces
      between them. */
  lemma WordsAreCore(pre: seq<string>, core: seq<string>, post: seq<string>)
    requires pre == [] || pre == [""]
    requires post == [] || post == [""]
    requires forall k :: 0 <= k < |core| ==> |core[k]| > 0
    ensures Filter(pre + core + post, NonEmptyText) == core
  {
    FilterConcat(pre + core, post, NonEmptyText);
    FilterConcat(pre, core, NonEmptyText);
    FilterKeepsAll(core, NonEmptyText);
    assert Filter(pre, NonEmptyText) == [];
    assert Filter(post, NonEmptyText) == [];
  }

  /** Empty end pieces each leave one space around the joined middle. */
  lemma JoinedCore(pre: seq<string>, core: seq<string>, post: seq<string>)
    requires |core| > 0
    requires pre == [] || pre == [""]
    requires post == [] || post == [""]
    ensures Join(pre + core + post, " ") == Pad(pre == [""]) + Join(core, " ") + Pad(post == [""])
  {
    var mid := core + post;
    if post == [""] {
      JoinEmptyLast(core, " ");
    } else {
      assert mid == core;
    }
    if pre == [""] {
      assert pre + core + post == [""] + mid;
      JoinEmptyHead(mid, " ");
    } else {
      assert pre + core + post == mid;
    }
  }

  /** One space, or nothing. */
  function Pad(b: bool): (p: string)
    ensures IsBlank(p)
  {
    if b then " " else ""
  }

  /** `generateImageQuery`: the keywords without special characters, with
      single spaces between words and none at either end. */
  function GenerateImageQuery(card: Card, cityName: string): (q: string)
    ensures forall i :: 0 <= i < |q| ==> IsWordChar(q[i]) || q[i] == ' '
    ensures |q| > 0 ==> q[0] != ' ' && q[|q| - 1] != ' '
    ensures SingleSpaced(q)
    ensures Filter(q, IsWordChar) == Filter(Keywords(card, cityName), IsWordChar)
    ensures q == Join(Words(Filter(Keywords(card, cityName), IsKept)), " ")
  {
    var keywords := Keywords(card, cityName);
    var cleaned := Filter(keywords, IsKept);
    FilterMembers(keywords, IsKept);
    FilterFilter(keywords, IsKept, IsWordChar);
    var collapsed := CollapseWs(cleaned);
    TrimKeepsShape(collapsed);
    TrimJoinedSplit(cleaned);
    Trim(collapsed)
  }

  /** Trimming text made of word characters and single spaces keeps it so
      and loses no word character. */
  lemma TrimKeepsShape(s: string)
    requires forall i :: 0 <= i < |s| ==> IsWordChar(s[i]) || s[i] == ' '
    requires SingleSpaced(s)
    ensures var t := Trim(s);
            (forall i :: 0 <= i < |t| ==> IsWordChar(t[i]) || t[i] == ' ') &&
            SingleSpaced(t) &&
            Filter(t, IsWordChar) == Filter(s, IsWordChar)
  {
    var t := Trim(s);
    var before, after := TrimParts(s);
    InnerShape(before, t, after);
    BlankEdgesNoWords(before, t, after);
  }

  /** A piece of text made of word characters and single spaces is made
      the same way. */
  lemma InnerShape(before: string, t: string, after: string)
    requires var s := before + t + after;
             (forall i :: 0 <= i < |s| ==> IsWordChar(s[i]) || s[i] == ' ') &&
             SingleSpaced(s)
    ensures forall i :: 0 <= i < |t| ==> IsWordChar(t[i]) || t[i] == ' '
    ensures SingleSpaced(t)
  {
    var s := before + t + after;
    assert forall i :: 0 <= i < |t| ==> t[i] == s[|before| + i];
  }

  /** Blank text on either side adds no word character. */
  lemma BlankEdgesNoWords(before: string, t: string, after: string)
    requires IsBlank(before) && IsBlank(after)
    ensures Filter(before + t + after, IsWordChar) == Filter(t, IsWordChar)
  {
    FilterConcat(before + t, after, IsWordChar);
    FilterConcat(before, t, IsWordChar);
    FilterDropsAll(before, IsWordChar);
    FilterDropsAll(after, IsWordChar);
  }

  const PlaceholderPrefix: string := "/placeholder.svg?height=200&width=400&query="

  /** `getPlaceImageUrl`: the placeholder path with the query as its
      URI-encoded last parameter, which decodes back to the query. */
  function GetPlaceImageUrl(card: Card, cityName: string): (url: string)
    ensures StartsWith(url, PlaceholderPrefix)
    ensures DecodeBytes(url[|PlaceholderPrefix|..]) == Some(Utf8Bytes(GenerateImageQuery(card, cityName)))
  {
    var query := GenerateImageQuery(card, cityName);
    DecodeEncode(query);
    var url := PlaceholderPrefix + EncodeUriComponent(query);
    assert url[|PlaceholderPrefix|..] == EncodeUriComponent(query);
    url
  }

  /** No display name of a category holds the bullet of the separator
      unless the category itself does. */
  lemma DisplayWithoutBullet(category: string)
    requires '•' !in category
    ensures '•' !in GetCategoryDisplayText(category)
  {
  }

  /** Lower-casing neither adds nor removes the bullet. */
  lemma LowerKeepsBullet(s: string)
    ensures '•' in Lower(s) <==> '•' in s
  {
    if '•' in Lower(s) {
      var i :| 0 <= i < |s| && Lower(s)[i] == '•';
      assert s[i] == '•';
    }
    if '•' in s {
      var i :| 0 <= i < |s| && s[i] == '•';
      assert Lower(s)[i] == '•';
    }
  }

  /** For a card of a presented route the query draws on the stop's name,
      its category's display name and the city, never on the hint. */
  lemma QueryOfPresentedCard(p: Place, index: nat, show: Show, cityName: string)
    requires '•' !in p.category
    ensures Keywords(CardFor(p, index, show), cityName) ==
            Lower(p.name) + " " + Lower(GetCategoryDisplayText(p.category)) + " " + Lower(cityName)
  {
    var card := CardFor(p, index, show);
    var d := GetCategoryDisplayText(p.category);
    DisplayWithoutBullet(p.category);
    LowerKeepsBullet(d);
    SubtitleHead(d, GetLocationHint(p.category));
    JoinThree(Lower(card.title), Lower(d), Lower(cityName), " ");
  }

  /** The word characters of a presented card's query are those of the
      stop's name, its category's display name and the city, in order. */
  lemma PresentedQueryWords(p: Place, index: nat, show: Show, cityName: string)
    requires '•' !in p.category
    ensures Filter(GenerateImageQuery(CardFor(p, index, show), cityName), IsWordChar) ==
            Filter(Lower(p.name), IsWordChar) + Filter(Lower(GetCategoryDisplayText(p.category)), IsWordChar) +
            Filter(Lower(cityName), IsWordChar)
  {
    var card := CardFor(p, index, show);
    QueryOfPresentedCard(p, index, show, cityName);
    WordsOfSpaced(Lower(p.name), Lower(GetCategoryDisplayText(p.category)), Lower(cityName));
  }

  /** Joining by spaces adds no word character. */
  lemma WordsOfSpaced(a: string, b: string, c: string)
    ensures Filter(a + " " + b + " " + c, IsWordChar) ==
            Filter(a, IsWordChar) + Filter(b, IsWordChar) + Filter(c, IsWordChar)
  {
    FilterAround(a, ' ', b, IsWordChar);
    FilterAround(a + " " + b, ' ', c, IsWordChar);
  }

  /** The lower-cased subtitle of a card, cut at the separator, is the
      lower-cased display name. */
  lemma SubtitleHead(d: string, h: string)
    requires '•' !in Lower(d)
    ensures TextBefore(Lower(d + CardSeparator + h), CardSeparator) == Lower(d)
  {
    LowerConcat(d + CardSeparator, h);
    LowerConcat(d, CardSeparator);
    assert Lower(CardSeparator) == CardSeparator;
    TextBeforeJoined(Lower(d), CardSeparator, Lower(h));
  }

  lemma JoinThree(a: string, b: string, c: string, sep: string)
    ensures Join([a, b, c], sep) == a + sep + b + sep + c
  {
    assert [a, b, c][1..] == [b, c];
    assert [b, c][1..] == [c];
    assert Join([b, c], sep) == b + sep + c;
    assert Join([a, b, c], sep) == a + sep + (b + sep + c);
  }
}
