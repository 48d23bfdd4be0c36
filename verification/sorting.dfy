/** `Array.prototype.sort` with a numeric comparator `(a, b) => key(a) - key(b)`.
    The sort is stable (ECMAScript 2019 and later), so its result is fully
    determined: sorted by key, and within one key in the input's order. */
module StableSort {
  import opened Seqs
  import opened ArgMin

  ghost predicate SortedBy<T(!new)>(s: seq<T>, key: T -> real) {
    forall i, j :: 0 <= i < j < |s| ==> key(s[i]) <= key(s[j])
  }

  /** `x => key(x) === v`. */
  function HasKey<T(!new)>(key: T -> real, v: real): T -> bool {
    x => key(x) == v
  }

  /** The elements of `s` whose key is `v`, in their order in `s`. */
  function KeyClass<T(!new)>(s: seq<T>, key: T -> real, v: real): seq<T> {
    Filter(s, HasKey(key, v))
  }

  /** Places `x` in front of the first element whose key is not smaller. */
  function InsertByKey<T(!new)>(x: T, s: seq<T>, key: T -> real): seq<T>
    decreases |s|
  {
    if |s| == 0 || key(x) <= key(s[0]) then [x] + s
    else [s[0]] + InsertByKey(x, s[1..], key)
  }

  /** Stable insertion sort by `key`, ascending. */
  function SortBy<T(!new)>(s: seq<T>, key: T -> real): (r: seq<T>)
    ensures multiset(r) == multiset(s)
    ensures SortedBy(r, key)
    ensures forall v :: KeyClass(r, key, v) == KeyClass(s, key, v)
    decreases |s|
  {
    if |s| == 0 then []
    else
      var rest := SortBy(s[1..], key);
      InsertMultiset(s[0], rest, key);
      InsertSorted(s[0], rest, key);
      assert s == [s[0]] + s[1..];
      forall v ensures KeyClass(InsertByKey(s[0], rest, key), key, v) == KeyClass(s, key, v) {
        SortStepClass(s, rest, key, v);
      }
      InsertByKey(s[0], rest, key)
  }

  /** Inserting the head into the sorted tail gives each key class of `s`. */
  lemma SortStepClass<T(!new)>(s: seq<T>, rest: seq<T>, key: T -> real, v: real)
    requires |s| > 0
    requires SortedBy(rest, key)
    requires KeyClass(rest, key, v) == KeyClass(s[1..], key, v)
    ensures KeyClass(InsertByKey(s[0], rest, key), key, v) == KeyClass(s, key, v)
  {
    InsertClass(s[0], rest, key, v);
    FilterCons(s[0], rest, HasKey(key, v));
    FilterCons(s[0], s[1..], HasKey(key, v));
    assert s == [s[0]] + s[1..];
  }

  lemma {:induction false} InsertMultiset<T(!new)>(x: T, s: seq<T>, key: T -> real)
    ensures multiset(InsertByKey(x, s, key)) == multiset([x] + s)
    decreases |s|
  {
    if |s| > 0 && key(s[0]) < key(x) {
      InsertMultiset(x, s[1..], key);
      assert s == [s[0]] + s[1..];
    }
  }

  lemma {:induction false} InsertSorted<T(!new)>(x: T, s: seq<T>, key: T -> real)
    requires SortedBy(s, key)
    ensures SortedBy(InsertByKey(x, s, key), key)
    decreases |s|
  {
    if |s| == 0 || key(x) <= key(s[0]) {
      SortedCons(x, s, key);
    } else {
      var tail := InsertByKey(x, s[1..], key);
      InsertSorted(x, s[1..], key);
      InsertMultiset(x, s[1..], key);
      forall k | 0 <= k < |tail| ensures key(s[0]) <= key(tail[k]) {
        assert tail[k] in multiset([x] + s[1..]);
        if tail[k] != x {
          assert tail[k] in s[1..];
          assert tail[k] in s;
          SortedHeadMin(s, key, tail[k]);
        }
      }
      SortedCons(s[0], tail, key);
    }
  }

  /** A sorted sequence starts with its smallest key. */
  lemma SortedHeadMin<T(!new)>(s: seq<T>, key: T -> real, x: T)
    requires SortedBy(s, key) && x in s
    ensures key(s[0]) <= key(x)
  {
    var j :| 0 <= j < |s| && s[j] == x;
    if j > 0 {
      assert key(s[0]) <= key(s[j]);
    }
  }

  /** Putting an element no larger than every key in front keeps a sequence
      sorted. */
  lemma SortedCons<T(!new)>(y: T, t: seq<T>, key: T -> real)
    requires SortedBy(t, key)
    requires forall k :: 0 <= k < |t| ==> key(y) <= key(t[k])
    ensures SortedBy([y] + t, key)
  {
    var r := [y] + t;
    forall i, j | 0 <= i < j < |r| ensures key(r[i]) <= key(r[j]) {
      assert r[j] == t[j - 1];
      if i > 0 {
        assert r[i] == t[i - 1];
      }
    }
  }

  lemma {:induction false} InsertClass<T(!new)>(x: T, s: seq<T>, key: T -> real, v: real)
    requires SortedBy(s, key)
    ensures KeyClass(InsertByKey(x, s, key), key, v) == KeyClass([x] + s, key, v)
    decreases |s|
  {
    if |s| > 0 && key(s[0]) < key(x) {
      var tail := InsertByKey(x, s[1..], key);
      InsertClass(x, s[1..], key, v);
      assert s == [s[0]] + s[1..];
      FilterCons(s[0], tail, HasKey(key, v));
      FilterCons(x, s[1..], HasKey(key, v));
      FilterCons(s[0], s[1..], HasKey(key, v));
      FilterCons(x, s, HasKey(key, v));
    }
  }

  /** A stable sort has exactly one possible result: two sorted sequences
      that agree on every key class are equal. */
  lemma {:induction false} SortedUnique<T(!new)>(a: seq<T>, b: seq<T>, key: T -> real)
    requires SortedBy(a, key) && SortedBy(b, key)
    requires forall v :: KeyClass(a, key, v) == KeyClass(b, key, v)
    ensures a == b
    decreases |a| + |b|
  {
    if |a| == 0 && |b| == 0 {
    } else if |a| == 0 {
      ClassOfMember(b, key, b[0]);
      assert false;
    } else if |b| == 0 {
      ClassOfMember(a, key, a[0]);
      assert false;
    } else {
      var ka, kb := key(a[0]), key(b[0]);
      FilterMember(a, HasKey(key, ka), a[0]);
      FilterMember(b, HasKey(key, ka), a[0]);
      assert KeyClass(a, key, ka) == KeyClass(b, key, ka);
      FilterMember(a, HasKey(key, kb), b[0]);
      FilterMember(b, HasKey(key, kb), b[0]);
      assert KeyClass(a, key, kb) == KeyClass(b, key, kb);
      SortedHeadMin(b, key, a[0]);
      SortedHeadMin(a, key, b[0]);
      assert a == [a[0]] + a[1..];
      assert b == [b[0]] + b[1..];
      assert ka == kb;
      FilterCons(a[0], a[1..], HasKey(key, ka));
      FilterCons(b[0], b[1..], HasKey(key, ka));
      assert KeyClass(a, key, ka) == [a[0]] + KeyClass(a[1..], key, ka);
      assert KeyClass(b, key, ka) == [b[0]] + KeyClass(b[1..], key, ka);
      assert KeyClass(a, key, ka)[0] == a[0];
      assert a[0] == b[0];
      forall v ensures KeyClass(a[1..], key, v) == KeyClass(b[1..], key, v) {
        assert KeyClass(a, key, v) == KeyClass(b, key, v);
        FilterCons(a[0], a[1..], HasKey(key, v));
        FilterCons(b[0], b[1..], HasKey(key, v));
        if ka == v {
          assert KeyClass(a, key, v) == [a[0]] + KeyClass(a[1..], key, v);
          assert KeyClass(b, key, v) == [a[0]] + KeyClass(b[1..], key, v);
          assert KeyClass(a[1..], key, v) == KeyClass(a, key, v)[1..];
          assert KeyClass(b[1..], key, v) == KeyClass(b, key, v)[1..];
        } else {
          assert KeyClass(a, key, v) == KeyClass(a[1..], key, v);
          assert KeyClass(b, key, v) == KeyClass(b[1..], key, v);
        }
      }
      SortedTail(a, key);
      SortedTail(b, key);
      SortedUnique(a[1..], b[1..], key);
    }
  }

  /** The key class of a member of `s` is not empty. */
  lemma ClassOfMember<T(!new)>(s: seq<T>, key: T -> real, x: T)
    requires x in s
    ensures KeyClass(s, key, key(x)) != []
  {
    FilterMember(s, HasKey(key, key(x)), x);
  }

  lemma SortedTail<T(!new)>(s: seq<T>, key: T -> real)
    requires SortedBy(s, key) && |s| > 0
    ensures SortedBy(s[1..], key)
  {
    forall i, j | 0 <= i < j < |s| - 1 ensures key(s[1..][i]) <= key(s[1..][j]) {
      assert s[1..][i] == s[i + 1] && s[1..][j] == s[j + 1];
    }
  }

  /** The sorted sequence starts with the first element of smallest key. */
  lemma HeadIsFirstMin<T(!new)>(s: seq<T>, key: T -> real)
    requires |s| > 0
    ensures SortBy(s, key)[0] == s[FirstMinIndex(s, key)]
  {
    var r := SortBy(s, key);
    var i := FirstMinIndex(s, key);
    var m := key(s[i]);
    assert r[0] in multiset(s);
    assert s[i] in multiset(r);
    assert key(r[0]) == m;
    FilterFirst(r, HasKey(key, m), 0);
    FilterFirst(s, HasKey(key, m), i);
    assert KeyClass(r, key, m) == KeyClass(s, key, m);
  }

  /** The key class of a block whose elements all have key `k`. */
  lemma BlockClass<T(!new)>(x: seq<T>, key: T -> real, k: real, v: real)
    requires forall i :: 0 <= i < |x| ==> key(x[i]) == k
    ensures KeyClass(x, key, v) == if v == k then x else []
  {
    if v == k {
      FilterKeepsAll(x, HasKey(key, v));
    } else {
      FilterDropsAll(x, HasKey(key, v));
    }
  }

  /** Sorting three blocks of constant, distinct keys puts them in key
      order and leaves each block as it was. */
  lemma SortThreeBlocks<T(!new)>(x: seq<T>, y: seq<T>, z: seq<T>, key: T -> real, kx: real, ky: real, kz: real)
    requires kx < ky < kz
    requires forall i :: 0 <= i < |x| ==> key(x[i]) == kx
    requires forall i :: 0 <= i < |y| ==> key(y[i]) == ky
    requires forall i :: 0 <= i < |z| ==> key(z[i]) == kz
    ensures SortBy(z + x + y, key) == x + y + z
  {
    BlocksSorted(x, y, z, key, kx, ky, kz);
    forall v ensures KeyClass(SortBy(z + x + y, key), key, v) == KeyClass(x + y + z, key, v) {
      BlocksClass(x, y, z, key, kx, ky, kz, v);
    }
    SortedUnique(SortBy(z + x + y, key), x + y + z, key);
  }

  lemma BlocksSorted<T(!new)>(x: seq<T>, y: seq<T>, z: seq<T>, key: T -> real, kx: real, ky: real, kz: real)
    requires kx < ky < kz
    requires forall i :: 0 <= i < |x| ==> key(x[i]) == kx
    requires forall i :: 0 <= i < |y| ==> key(y[i]) == ky
    requires forall i :: 0 <= i < |z| ==> key(z[i]) == kz
    ensures SortedBy(x + y + z, key)
  {
    var sorted := x + y + z;
    forall i, j | 0 <= i < j < |sorted| ensures key(sorted[i]) <= key(sorted[j]) {
      assert key(sorted[i]) == (if i < |x| then kx else if i < |x| + |y| then ky else kz);
      assert key(sorted[j]) == (if j < |x| then kx else if j < |x| + |y| then ky else kz);
    }
  }

  /** Reordering the blocks leaves every key class as it was. */
  lemma BlocksClass<T(!new)>(x: seq<T>, y: seq<T>, z: seq<T>, key: T -> real, kx: real, ky: real, kz: real, v: real)
    requires kx < ky < kz
    requires forall i :: 0 <= i < |x| ==> key(x[i]) == kx
    requires forall i :: 0 <= i < |y| ==> key(y[i]) == ky
    requires forall i :: 0 <= i < |z| ==> key(z[i]) == kz
    ensures KeyClass(z + x + y, key, v) == KeyClass(x + y + z, key, v)
  {
    FilterConcat(z + x, y, HasKey(key, v));
    FilterConcat(z, x, HasKey(key, v));
    FilterConcat(x + y, z, HasKey(key, v));
    FilterConcat(x, y, HasKey(key, v));
    BlockClass(x, key, kx, v);
    BlockClass(y, key, ky, v);
    BlockClass(z, key, kz, v);
  }

  /** Sorting neither adds nor drops an element. */
  lemma SortByMembers<T(!new)>(s: seq<T>, key: T -> real)
    ensures forall x :: x in SortBy(s, key) <==> x in s
  {
    var r := SortBy(s, key);
    assert forall x :: x in r <==> x in multiset(r);
  }
}
