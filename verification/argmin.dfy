/** The "keep the first strictly smaller value" scan that the source writes
    several times: `if (value < best) { best = value; index = i }`, and the
    `reduce` in lib/route-service.ts that compares with `<`. */
module ArgMin {

  /** Index of the first element of `s` with the smallest `key`. The source's
      loops start from `Number.POSITIVE_INFINITY`, so the element at index 0
      always replaces the initial value; the scan below starts from it. */
  function FirstMinIndex<T>(s: seq<T>, key: T -> real): (i: nat)
    requires |s| > 0
    ensures i < |s|
    ensures forall j :: 0 <= j < |s| ==> key(s[i]) <= key(s[j])
    ensures forall j :: 0 <= j < i ==> key(s[i]) < key(s[j])
  {
    Scan(s, key, 0, 1)
  }

  /** One pass of the scan from index `from` on, with `best` the index
      holding the smallest value seen so far. */
  function Scan<T>(s: seq<T>, key: T -> real, best: nat, from: nat): (i: nat)
    requires best < from <= |s|
    requires forall j :: 0 <= j < from ==> key(s[best]) <= key(s[j])
    requires forall j :: 0 <= j < best ==> key(s[best]) < key(s[j])
    ensures i < |s|
    ensures forall j :: 0 <= j < |s| ==> key(s[i]) <= key(s[j])
    ensures forall j :: 0 <= j < i ==> key(s[i]) < key(s[j])
    decreases |s| - from
  {
    if from == |s| then best
    else if key(s[from]) < key(s[best]) then Scan(s, key, from, from + 1)
    else Scan(s, key, best, from + 1)
  }

  /** The first minimum is the only index that is a minimum and strictly
      below everything before it. */
  lemma FirstMinUnique<T>(s: seq<T>, key: T -> real, i: nat)
    requires i < |s|
    requires forall j :: 0 <= j < |s| ==> key(s[i]) <= key(s[j])
    requires forall j :: 0 <= j < i ==> key(s[i]) < key(s[j])
    ensures FirstMinIndex(s, key) == i
  {
    var k := FirstMinIndex(s, key);
    assert k == i;
  }

  /** Two keys that order the elements of `s` the same way pick the same
      first minimum. */
  lemma FirstMinSameOrder<T>(s: seq<T>, key1: T -> real, key2: T -> real)
    requires |s| > 0
    requires forall j, k :: 0 <= j < |s| && 0 <= k < |s| ==> (key1(s[j]) < key1(s[k]) <==> key2(s[j]) < key2(s[k]))
    ensures FirstMinIndex(s, key1) == FirstMinIndex(s, key2)
  {
    var i := FirstMinIndex(s, key1);
    forall j | 0 <= j < |s| ensures key2(s[i]) <= key2(s[j]) {
      assert !(key1(s[j]) < key1(s[i]));
    }
    FirstMinUnique(s, key2, i);
  }
}
