/** Where `RouteService` splices a place into a partial route: the cheapest
    position for a place with coordinates (`findBestInsertPosition`,
    `calculateInsertionCost`) and a position next to a related place for
    one without (`insertPlacesWithoutCoords`, `findLogicalInsertPosition`,
    `areAddressesSimilar`). */
module Insertion {
  import opened Wrappers
  import opened Seqs
  import opened ArgMin
  import opened Text
  import opened Places
  import opened RouteMetrics

  /** `calculateInsertionCost`: the legs to and from the new place minus the
      leg it replaces; a leg whose end is missing or has no coordinates
      counts nothing, and a new place without coordinates costs nothing. */
  function InsertionCost(dist: Distance, ordered: seq<Place>, newPlace: Place, position: nat): real
    requires position <= |ordered|
  {
    if LacksCoords(newPlace) then 0.0
    else
      var before: Option<Place> := if position > 0 then Some(ordered[position - 1]) else None;
      var after: Option<Place> := if position < |ordered| then Some(ordered[position]) else None;
      var toNew := if before.Some? && HasCoords(before.value) then dist(CoordOf(before.value), CoordOf(newPlace)) else 0.0;
      var fromNew := if after.Some? && HasCoords(after.value) then dist(CoordOf(newPlace), CoordOf(after.value)) else 0.0;
      var replaced :=
        if before.Some? && after.Some? && HasCoords(before.value) && HasCoords(after.value)
        then dist(CoordOf(before.value), CoordOf(after.value)) else 0.0;
      toNew + fromNew - replaced
  }

  /** The insertion cost is exactly how much the total distance grows. */
  lemma InsertionCostIsIncrease(dist: Distance, ordered: seq<Place>, newPlace: Place, position: nat)
    requires HasCoords(newPlace) && position <= |ordered|
    ensures TotalDistance(dist, InsertAt(ordered, position, newPlace)) ==
            TotalDistance(dist, ordered) + InsertionCost(dist, ordered, newPlace, position)
  {
    var n := |ordered|;
    InsertionCostLegs(dist, ordered, newPlace, position);
    InsertAtEnds(ordered, newPlace);
    if n == 0 {
    } else if position == 0 {
      TotalDistanceCons(dist, newPlace, ordered);
    } else if position == n {
      InsertAtEnd(dist, ordered, newPlace);
    } else {
      InsertInside(dist, ordered, newPlace, position);
    }
  }

  /** The insertion cost in terms of legs: the legs to and from the new
      place, less the leg between its neighbours. */
  lemma InsertionCostLegs(dist: Distance, ordered: seq<Place>, newPlace: Place, position: nat)
    requires HasCoords(newPlace) && position <= |ordered|
    ensures InsertionCost(dist, ordered, newPlace, position) ==
            (if position > 0 then Leg(dist, ordered[position - 1], newPlace) else 0.0) +
            (if position < |ordered| then Leg(dist, newPlace, ordered[position]) else 0.0) -
            (if 0 < position < |ordered| then Leg(dist, ordered[position - 1], ordered[position]) else 0.0)
  {
  }

  lemma InsertAtEnd(dist: Distance, ordered: seq<Place>, newPlace: Place)
    requires HasCoords(newPlace) && |ordered| > 0
    ensures TotalDistance(dist, ordered + [newPlace]) ==
            TotalDistance(dist, ordered) + Leg(dist, ordered[|ordered| - 1], newPlace)
  {
    var n := |ordered|;
    var a := ordered[..n - 1];
    var x := ordered[n - 1];
    assert ordered == a + [x];
    assert ordered + [newPlace] == a + [x] + [newPlace];
    TotalDistanceSplit(dist, a, x, [newPlace]);
    TotalDistanceCons(dist, x, [newPlace]);
  }

  lemma InsertInside(dist: Distance, ordered: seq<Place>, newPlace: Place, position: nat)
    requires HasCoords(newPlace) && 0 < position < |ordered|
    ensures TotalDistance(dist, InsertAt(ordered, position, newPlace)) ==
            TotalDistance(dist, ordered) + Leg(dist, ordered[position - 1], newPlace)
            + Leg(dist, newPlace, ordered[position]) - Leg(dist, ordered[position - 1], ordered[position])
  {
    var a := ordered[..position - 1];
    var b := ordered[position - 1];
    var rest := ordered[position..];
    InsertAtPieces(ordered, position, newPlace);
    InsertBetween(dist, a, b, newPlace, rest);
  }

  lemma InsertAtEnds<T>(s: seq<T>, x: T)
    ensures InsertAt(s, 0, x) == [x] + s && InsertAt(s, |s|, x) == s + [x]
  {
  }

  /** The list before and after an insertion, cut at the element in front
      of the insertion point. */
  lemma InsertAtPieces<T>(s: seq<T>, i: nat, x: T)
    requires 0 < i < |s|
    ensures s == s[..i - 1] + [s[i - 1]] + s[i..]
    ensures InsertAt(s, i, x) == s[..i - 1] + [s[i - 1]] + ([x] + s[i..])
  {
    assert s[..i] == s[..i - 1] + [s[i - 1]];
  }

  /** Putting `p` between `b` and the head of `rest` replaces one leg by two. */
  lemma InsertBetween(dist: Distance, a: seq<Place>, b: Place, p: Place, rest: seq<Place>)
    requires |rest| > 0
    ensures TotalDistance(dist, a + [b] + ([p] + rest)) ==
            TotalDistance(dist, a + [b] + rest) + Leg(dist, b, p) + Leg(dist, p, rest[0]) - Leg(dist, b, rest[0])
  {
    SplitAround(dist, a, b, rest);
    SplitAround(dist, a, b, [p] + rest);
    TotalDistanceCons(dist, p, rest);
  }

  /** Splitting at `x` and expanding the leg that leaves it. */
  lemma SplitAround(dist: Distance, a: seq<Place>, x: Place, b: seq<Place>)
    requires |b| > 0
    ensures TotalDistance(dist, a + [x] + b) == TotalDistance(dist, a + [x]) + Leg(dist, x, b[0]) + TotalDistance(dist, b)
  {
    TotalDistanceSplit(dist, a, x, b);
    TotalDistanceCons(dist, x, b);
  }

  lemma TotalDistanceCons(dist: Distance, x: Place, s: seq<Place>)
    requires |s| > 0
    ensures TotalDistance(dist, [x] + s) == Leg(dist, x, s[0]) + TotalDistance(dist, s)
  {
    assert ([x] + s)[1..] == s;
  }

  /** The positions `0..n` a place can be inserted at in a list of `n`. */
  function Positions(n: nat): (r: seq<int>)
    ensures |r| == n + 1 && forall i :: 0 <= i <= n ==> r[i] == i
  {
    seq(n + 1, i => i)
  }

  /** `i => calculateInsertionCost(ordered, newPlace, i)`. */
  function CostAt(dist: Distance, ordered: seq<Place>, newPlace: Place): int -> real {
    i => if 0 <= i <= |ordered| then InsertionCost(dist, ordered, newPlace, i) else 0.0
  }

  /** `findBestInsertPosition`: 0 in an empty list, the end for a place
      without coordinates, and otherwise the first position of least
      insertion cost. */
  function FindBestInsertPosition(dist: Distance, ordered: seq<Place>, newPlace: Place): (pos: nat)
    ensures pos <= |ordered|
    ensures |ordered| > 0 && LacksCoords(newPlace) ==> pos == |ordered|
    ensures |ordered| > 0 && HasCoords(newPlace) ==>
              (forall q :: 0 <= q <= |ordered| ==>
                 InsertionCost(dist, ordered, newPlace, pos) <= InsertionCost(dist, ordered, newPlace, q)) &&
              (forall q :: 0 <= q < pos ==>
                 InsertionCost(dist, ordered, newPlace, pos) < InsertionCost(dist, ordered, newPlace, q))
  {
    if |ordered| == 0 then 0
    else if LacksCoords(newPlace) then |ordered|
    else
      var ps := Positions(|ordered|);
      var key := CostAt(dist, ordered, newPlace);
      var i := FirstMinIndex(ps, key);
      assert forall q :: 0 <= q <= |ordered| ==> key(ps[q]) == InsertionCost(dist, ordered, newPlace, q);
      i
  }

  /** Inserting at the chosen position gives the shortest route among all
      positions, and every earlier position gives a strictly longer one. */
  lemma BestInsertPositionIsShortest(dist: Distance, ordered: seq<Place>, newPlace: Place, q: nat)
    requires |ordered| > 0 && HasCoords(newPlace) && q <= |ordered|
    ensures var best := FindBestInsertPosition(dist, ordered, newPlace);
            TotalDistance(dist, InsertAt(ordered, best, newPlace)) <= TotalDistance(dist, InsertAt(ordered, q, newPlace)) &&
            (q < best ==> TotalDistance(dist, InsertAt(ordered, best, newPlace)) < TotalDistance(dist, InsertAt(ordered, q, newPlace)))
  {
    var best := FindBestInsertPosition(dist, ordered, newPlace);
    InsertionCostIsIncrease(dist, ordered, newPlace, best);
    InsertionCostIsIncrease(dist, ordered, newPlace, q);
  }

  predicate IsLowerAlnum(c: char) {
    ('a' <= c <= 'z') || ('0' <= c <= '9')
  }

  /** `addr.toLowerCase().replace(/[^a-z0-9]/g, "")`: spaces are removed
      along with everything else that is not a lower-case letter or digit. */
  function NormalizeAddress(address: string): (r: string)
    ensures forall i :: 0 <= i < |r| ==> IsLowerAlnum(r[i])
  {
    var r := Filter(Lower(address), IsLowerAlnum);
    FilterMembers(Lower(address), IsLowerAlnum);
    assert forall i :: 0 <= i < |r| ==> r[i] in r;
    r
  }

  /** `areAddressesSimilar`: some whitespace-separated word of the first
      normalised address, longer than 3, is also a word of the second. */
  predicate AreAddressesSimilar(addr1: string, addr2: string) {
    var words1 := SplitWs(NormalizeAddress(addr1));
    var words2 := SplitWs(NormalizeAddress(addr2));
    exists k :: 0 <= k < |words1| && words1[k] in words2 && |words1[k]| > 3
  }

  /** Normalisation leaves no whitespace to split on, so two addresses are
      similar exactly when their normalised forms are equal and longer than
      3 characters. */
  lemma AddressesSimilarIff(addr1: string, addr2: string)
    ensures AreAddressesSimilar(addr1, addr2) <==>
            NormalizeAddress(addr1) == NormalizeAddress(addr2) && |NormalizeAddress(addr1)| > 3
  {
    var n1 := NormalizeAddress(addr1);
    var n2 := NormalizeAddress(addr2);
    SplitWsNoSpace(n1);
    SplitWsNoSpace(n2);
    assert SplitWs(n1)[0] == n1;
  }

  /** `ordered[i]` is a good neighbour for `p`: similar address or the same
      category. */
  predicate Fits(q: Place, p: Place) {
    AreAddressesSimilar(q.address, p.address) || q.category == p.category
  }

  /** `q => fits(q, p)`. */
  function FitsWith(p: Place): Place -> bool {
    q => Fits(q, p)
  }

  /** `findLogicalInsertPosition`: just after the first place that fits, or
      at the end when none does. */
  function FindLogicalInsertPosition(ordered: seq<Place>, p: Place): (pos: nat)
    ensures pos <= |ordered| && (|ordered| > 0 ==> pos > 0)
    ensures (forall j :: 0 <= j < |ordered| ==> !FitsWith(p)(ordered[j])) ==> pos == |ordered|
    ensures (exists j :: 0 <= j < |ordered| && FitsWith(p)(ordered[j])) ==>
              0 < pos && FitsWith(p)(ordered[pos - 1]) && forall j :: 0 <= j < pos - 1 ==> !FitsWith(p)(ordered[j])
  {
    match FindFirst(ordered, FitsWith(p))
    case Some(i) => i + 1
    case None => |ordered|
  }

  /** `insertPlacesWithoutCoords`: each place without coordinates, in turn,
      goes to its logical position in the growing list. */
  function InsertPlacesWithoutCoords(ordered: seq<Place>, placesWithoutCoords: seq<Place>): (r: seq<Place>)
    ensures multiset(r) == multiset(ordered) + multiset(placesWithoutCoords)
    ensures |placesWithoutCoords| == 0 ==> r == ordered
    ensures SameHead(r, ordered)
    decreases |placesWithoutCoords|
  {
    if |placesWithoutCoords| == 0 then ordered
    else
      var p := placesWithoutCoords[0];
      assert multiset(placesWithoutCoords) == multiset{p} + multiset(placesWithoutCoords[1..]) by {
        assert placesWithoutCoords == [p] + placesWithoutCoords[1..];
      }
      InsertPlacesWithoutCoords(InsertLogically(ordered, p), placesWithoutCoords[1..])
  }

  /** `r` starts with the first element of `s`, if `s` has one. */
  predicate SameHead(r: seq<Place>, s: seq<Place>) {
    |s| > 0 ==> |r| > 0 && r[0] == s[0]
  }

  /** One step of the loop: `p` spliced in at its logical position, which
      never displaces the first place. */
  function InsertLogically(ordered: seq<Place>, p: Place): (next: seq<Place>)
    ensures multiset(next) == multiset(ordered) + multiset{p}
    ensures SameHead(next, ordered)
  {
    var pos := FindLogicalInsertPosition(ordered, p);
    var next := InsertAt(ordered, pos, p);
    assert pos > 0 ==> next[0] == next[..pos][0];
    next
  }
}
