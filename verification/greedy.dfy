/** The greedy walk the source writes three times (nearest-neighbour route,
    spiral route, `orderPlacesByProximity`): from the current stop, move to
    the remaining stop that is cheapest to reach, the first one on ties,
    remove it, and repeat until nothing remains. */
module Greedy {
  import opened Seqs
  import opened ArgMin

  /** `x => cost(from, x)`. */
  function CostFrom<T>(cost: (T, T) -> real, from: T): T -> real {
    x => cost(from, x)
  }

  /** Sum of the hop costs along a path. */
  function PathCost<T>(path: seq<T>, cost: (T, T) -> real): real
    decreases |path|
  {
    if |path| < 2 then 0.0 else cost(path[0], path[1]) + PathCost(path[1..], cost)
  }

  /** Each hop of the path is no dearer than a hop from the same stop to any
      stop still ahead of it. */
  ghost predicate IsGreedy<T>(path: seq<T>, cost: (T, T) -> real) {
    forall k, j :: 0 <= k < j < |path| ==> cost(path[k], path[k + 1]) <= cost(path[k], path[j])
  }

  /** The stops visited after the starting point, and the summed cost of the
      hops that reached them. */
  datatype Walk<T> = Walk(stops: seq<T>, length: real)

  /** The `while (remaining.length > 0)` loop: pick the first cheapest
      remaining stop, move there, add the hop to the length, splice it out. */
  function Chain<T>(current: T, remaining: seq<T>, cost: (T, T) -> real): (w: Walk<T>)
    ensures |w.stops| == |remaining|
    ensures multiset(w.stops) == multiset(remaining)
    decreases |remaining|
  {
    if |remaining| == 0 then Walk([], 0.0)
    else
      var i := FirstMinIndex(remaining, CostFrom(cost, current));
      var next := remaining[i];
      var rest := Chain(next, RemoveAt(remaining, i), cost);
      Walk([next] + rest.stops, cost(current, next) + rest.length)
  }

  /** The length of the walk is the cost of the path it describes. */
  lemma {:induction false} ChainLength<T>(current: T, remaining: seq<T>, cost: (T, T) -> real)
    ensures Chain(current, remaining, cost).length == PathCost([current] + Chain(current, remaining, cost).stops, cost)
    decreases |remaining|
  {
    if |remaining| > 0 {
      var i := FirstMinIndex(remaining, CostFrom(cost, current));
      var next := remaining[i];
      var rest := Chain(next, RemoveAt(remaining, i), cost);
      ChainLength(next, RemoveAt(remaining, i), cost);
      var path := [current] + ([next] + rest.stops);
      assert path[1..] == [next] + rest.stops;
    }
  }

  /** The walk is greedy: every hop goes to a cheapest stop among those not
      yet visited. */
  lemma {:induction false} ChainIsGreedy<T>(current: T, remaining: seq<T>, cost: (T, T) -> real)
    ensures IsGreedy([current] + Chain(current, remaining, cost).stops, cost)
    decreases |remaining|
  {
    if |remaining| > 0 {
      var i := FirstMinIndex(remaining, CostFrom(cost, current));
      var next := remaining[i];
      var tail := RemoveAt(remaining, i);
      var sub := [next] + Chain(next, tail, cost).stops;
      ChainIsGreedy(next, tail, cost);
      assert multiset(sub) == multiset(remaining);
      forall j | 0 <= j < |sub| ensures cost(current, sub[0]) <= cost(current, sub[j]) {
        assert sub[j] in multiset(remaining);
        var m :| 0 <= m < |remaining| && remaining[m] == sub[j];
        assert CostFrom(cost, current)(remaining[i]) <= CostFrom(cost, current)(remaining[m]);
      }
      GreedyCons(current, sub, cost);
    }
  }

  /** Index `i` of `remaining` is cheapest to reach from `current`, and
      strictly cheaper than every stop before it in the list. */
  ghost predicate IsFirstCheapest<T>(current: T, remaining: seq<T>, i: int, cost: (T, T) -> real)
    requires 0 <= i < |remaining|
  {
    (forall j :: 0 <= j < |remaining| ==> cost(current, remaining[i]) <= cost(current, remaining[j])) &&
    (forall j :: 0 <= j < i ==> cost(current, remaining[i]) < cost(current, remaining[j]))
  }

  /** `stops` visits all of `remaining` from `current`, each time moving to a
      cheapest remaining stop, the earliest in the remaining list on ties,
      and taking it out of the list. */
  ghost predicate TakesFirstCheapest<T>(current: T, remaining: seq<T>, stops: seq<T>, cost: (T, T) -> real)
    decreases |remaining|
  {
    |stops| == |remaining| &&
    (|remaining| > 0 ==>
      exists i :: 0 <= i < |remaining| && IsFirstCheapest(current, remaining, i, cost) &&
        stops[0] == remaining[i] &&
        TakesFirstCheapest(remaining[i], RemoveAt(remaining, i), stops[1..], cost))
  }

  /** The walk is the one and only walk that always moves to the earliest
      cheapest remaining stop. */
  lemma {:induction false} ChainTakesFirstCheapest<T>(current: T, remaining: seq<T>, stops: seq<T>, cost: (T, T) -> real)
    ensures TakesFirstCheapest(current, remaining, stops, cost) <==> stops == Chain(current, remaining, cost).stops
    decreases |remaining|
  {
    if |remaining| > 0 && |stops| == |remaining| {
      var i := FirstMinIndex(remaining, CostFrom(cost, current));
      ChainTakesFirstCheapest(remaining[i], RemoveAt(remaining, i), stops[1..], cost);
      ChainStep(current, remaining, stops, cost);
    }
  }

  /** The inductive step: if the walk from the scan's pick is the one such
      walk through what remains, the walk from `current` is the one such walk
      through `remaining`. */
  lemma ChainStep<T>(current: T, remaining: seq<T>, stops: seq<T>, cost: (T, T) -> real)
    requires |remaining| > 0 && |stops| == |remaining|
    requires var i := FirstMinIndex(remaining, CostFrom(cost, current));
             TakesFirstCheapest(remaining[i], RemoveAt(remaining, i), stops[1..], cost) <==>
             stops[1..] == Chain(remaining[i], RemoveAt(remaining, i), cost).stops
    ensures TakesFirstCheapest(current, remaining, stops, cost) <==> stops == Chain(current, remaining, cost).stops
  {
    var i := FirstMinIndex(remaining, CostFrom(cost, current));
    var next := remaining[i];
    var rest := Chain(next, RemoveAt(remaining, i), cost).stops;
    assert Chain(current, remaining, cost).stops == [next] + rest;
    TakesFirstCheapestStep(current, remaining, stops, cost);
    assert stops == [next] + rest <==> stops[0] == next && stops[1..] == rest by {
      assert stops == [stops[0]] + stops[1..];
    }
  }

  /** One step of such a walk: its first stop is the scan's pick, and the
      rest is such a walk from there through what remains. */
  lemma TakesFirstCheapestStep<T>(current: T, remaining: seq<T>, stops: seq<T>, cost: (T, T) -> real)
    requires |remaining| > 0 && |stops| == |remaining|
    ensures var i := FirstMinIndex(remaining, CostFrom(cost, current));
            TakesFirstCheapest(current, remaining, stops, cost) <==>
            stops[0] == remaining[i] && TakesFirstCheapest(remaining[i], RemoveAt(remaining, i), stops[1..], cost)
  {
    var key := CostFrom(cost, current);
    var i := FirstMinIndex(remaining, key);
    assert IsFirstCheapest(current, remaining, i, cost) by {
      forall j | 0 <= j < |remaining| ensures cost(current, remaining[i]) <= cost(current, remaining[j]) {
        assert key(remaining[i]) <= key(remaining[j]);
      }
      forall j | 0 <= j < i ensures cost(current, remaining[i]) < cost(current, remaining[j]) {
        assert key(remaining[i]) < key(remaining[j]);
      }
    }
    forall k | 0 <= k < |remaining| && IsFirstCheapest(current, remaining, k, cost) ensures k == i {
      FirstMinUnique(remaining, key, k);
    }
  }

  /** A greedy path stays greedy when a stop whose first hop is cheapest is
      put in front of it. */
  lemma GreedyCons<T>(current: T, sub: seq<T>, cost: (T, T) -> real)
    requires |sub| > 0 && IsGreedy(sub, cost)
    requires forall j :: 0 <= j < |sub| ==> cost(current, sub[0]) <= cost(current, sub[j])
    ensures IsGreedy([current] + sub, cost)
  {
    var path := [current] + sub;
    forall k, j | 0 <= k < j < |path| ensures cost(path[k], path[k + 1]) <= cost(path[k], path[j]) {
      assert path[j] == sub[j - 1];
      if k > 0 {
        assert path[k] == sub[k - 1] && path[k + 1] == sub[k];
      }
    }
  }

  /** Two hop costs that rank the candidate stops from every place the same
      way produce the same walk. */
  lemma {:induction false} ChainSameOrder<T>(current: T, remaining: seq<T>, cost1: (T, T) -> real, cost2: (T, T) -> real)
    requires forall a, x, y :: cost1(a, x) < cost1(a, y) <==> cost2(a, x) < cost2(a, y)
    ensures Chain(current, remaining, cost1).stops == Chain(current, remaining, cost2).stops
    decreases |remaining|
  {
    if |remaining| > 0 {
      FirstMinSameOrder(remaining, CostFrom(cost1, current), CostFrom(cost2, current));
      var i := FirstMinIndex(remaining, CostFrom(cost1, current));
      ChainSameOrder(remaining[i], RemoveAt(remaining, i), cost1, cost2);
    }
  }

  /** A walk to a single stop costs that one hop. */
  lemma ChainSingle<T>(current: T, remaining: seq<T>, cost: (T, T) -> real)
    requires |remaining| == 1
    ensures Chain(current, remaining, cost).length == cost(current, remaining[0])
  {
    assert FirstMinIndex(remaining, CostFrom(cost, current)) == 0;
    assert |RemoveAt(remaining, 0)| == 0;
  }
}
