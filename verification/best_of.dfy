/** The `for (const algorithm of algorithms)` loop of `generateOptimalRoute`,
    for any kind of result: walk the outcomes, skip the failed ones, and
    keep an outcome only when it scores strictly higher than the best so
    far, which starts at -1. */
module BestOf {
  import opened Wrappers
  import opened ArgMin

  /** The score an outcome competes with; a failed outcome scores -1, the
      initial best score, which nothing beats at equality. */
  function OptScore<T>(o: Option<T>, score: T -> real): real {
    match o
    case None => -1.0
    case Some(x) => score(x)
  }

  /** `o => -score(o)`: the kept outcome is the first least of these. */
  function NegOptScore<T>(score: T -> real): Option<T> -> real {
    o => -OptScore(o, score)
  }

  /** The loop from a running best: an outcome replaces the best only when
      its score is strictly higher. */
  function PickBest<T>(outcomes: seq<Option<T>>, score: T -> real, best: Option<T>, bestScore: real): Option<T>
    decreases |outcomes|
  {
    if |outcomes| == 0 then best
    else match outcomes[0]
      case None => PickBest(outcomes[1..], score, best, bestScore)
      case Some(x) =>
        if score(x) > bestScore then PickBest(outcomes[1..], score, Some(x), score(x))
        else PickBest(outcomes[1..], score, best, bestScore)
  }

  /** With scores never below 0, the loop started from no result and best
      score -1 keeps the first outcome of greatest score: the first best
      result whenever some outcome succeeded, and nothing only when every
      outcome failed. */
  lemma PickBestIsFirstMax<T>(outcomes: seq<Option<T>>, score: T -> real)
    requires forall x :: score(x) >= 0.0
    ensures |outcomes| > 0 ==> PickBest(outcomes, score, None, -1.0) == outcomes[FirstMinIndex(outcomes, NegOptScore(score))]
    ensures PickBest(outcomes, score, None, -1.0).None? <==> forall i :: 0 <= i < |outcomes| ==> outcomes[i].None?
  {
    if |outcomes| == 0 { return; }
    PickBestStart(outcomes, score);
    ScanAgrees(outcomes, score, 0, 1);
    var i := FirstMinIndex(outcomes, NegOptScore(score));
    if outcomes[i].None? {
      AllFailed(outcomes, score, i);
    }
  }

  /** The first outcome always becomes the running best: a success scores
      at least 0, above the initial -1, and a failure leaves no result. */
  lemma PickBestStart<T>(outcomes: seq<Option<T>>, score: T -> real)
    requires forall x :: score(x) >= 0.0
    requires |outcomes| > 0
    ensures PickBest(outcomes, score, None, -1.0) == PickBest(outcomes[1..], score, outcomes[0], OptScore(outcomes[0], score))
  {
    match outcomes[0]
    case None =>
    case Some(x) => assert score(x) > -1.0;
  }

  /** When a failed outcome scores no worse than every other, every outcome
      failed. */
  lemma AllFailed<T>(outcomes: seq<Option<T>>, score: T -> real, i: nat)
    requires forall x :: score(x) >= 0.0
    requires i < |outcomes| && outcomes[i].None?
    requires forall j :: 0 <= j < |outcomes| ==> NegOptScore(score)(outcomes[i]) <= NegOptScore(score)(outcomes[j])
    ensures forall j :: 0 <= j < |outcomes| ==> outcomes[j].None?
  {
    forall j | 0 <= j < |outcomes| ensures outcomes[j].None? {
      assert NegOptScore(score)(outcomes[i]) <= NegOptScore(score)(outcomes[j]);
    }
  }

  /** When the running best is the first outcome of greatest score among
      the first `from`, the loop ends on the first outcome of greatest
      score overall. */
  lemma {:induction false} ScanAgrees<T>(outcomes: seq<Option<T>>, score: T -> real, best: nat, from: nat)
    requires forall x :: score(x) >= 0.0
    requires best < from <= |outcomes|
    requires forall j :: 0 <= j < from ==> OptScore(outcomes[j], score) <= OptScore(outcomes[best], score)
    requires forall j :: 0 <= j < best ==> OptScore(outcomes[j], score) < OptScore(outcomes[best], score)
    ensures PickBest(outcomes[from..], score, outcomes[best], OptScore(outcomes[best], score)) ==
            outcomes[FirstMinIndex(outcomes, NegOptScore(score))]
    decreases |outcomes| - from
  {
    if from < |outcomes| {
      var o := outcomes[from];
      SliceCons(outcomes, from);
      if OptScore(o, score) > OptScore(outcomes[best], score) {
        assert o.Some?;
        StepReplaces(o, outcomes[from + 1..], outcomes[best], score);
        ScanAgrees(outcomes, score, from, from + 1);
      } else {
        StepKeeps(o, outcomes[from + 1..], outcomes[best], score);
        ScanAgrees(outcomes, score, best, from + 1);
      }
    } else {
      LoopEnd(outcomes, score, best);
    }
  }

  /** An outcome of greatest score, strictly above every one before it, is
      the first minimum of the negated scores. */
  lemma LoopEnd<T>(outcomes: seq<Option<T>>, score: T -> real, best: nat)
    requires best < |outcomes|
    requires forall j :: 0 <= j < |outcomes| ==> OptScore(outcomes[j], score) <= OptScore(outcomes[best], score)
    requires forall j :: 0 <= j < best ==> OptScore(outcomes[j], score) < OptScore(outcomes[best], score)
    ensures FirstMinIndex(outcomes, NegOptScore(score)) == best
  {
    FirstMinUnique(outcomes, NegOptScore(score), best);
  }

  lemma SliceCons<T>(s: seq<T>, i: nat)
    requires i < |s|
    ensures s[i..] == [s[i]] + s[i + 1..]
  {
  }

  /** An outcome that scores higher becomes the running best. */
  lemma StepReplaces<T>(o: Option<T>, rest: seq<Option<T>>, best: Option<T>, score: T -> real)
    requires o.Some? && OptScore(o, score) > OptScore(best, score)
    ensures PickBest([o] + rest, score, best, OptScore(best, score)) == PickBest(rest, score, o, OptScore(o, score))
  {
    assert ([o] + rest)[0] == o && ([o] + rest)[1..] == rest;
  }

  /** An outcome that does not score higher leaves the running best. */
  lemma StepKeeps<T>(o: Option<T>, rest: seq<Option<T>>, best: Option<T>, score: T -> real)
    requires OptScore(o, score) <= OptScore(best, score)
    ensures PickBest([o] + rest, score, best, OptScore(best, score)) == PickBest(rest, score, best, OptScore(best, score))
  {
    assert ([o] + rest)[0] == o && ([o] + rest)[1..] == rest;
  }
}
