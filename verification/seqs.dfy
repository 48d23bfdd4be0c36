/** Sequence helpers standing in for the JavaScript array methods the
    source uses: `filter`, `splice`, `slice`, `new Set(...)` and `flatMap`. */
module Seqs {
  import opened Wrappers

  /** `s.filter(f)`: the elements of `s` that satisfy `f`, in their order. */
  function Filter<T>(s: seq<T>, f: T -> bool): (r: seq<T>)
    ensures |r| <= |s|
    decreases |s|
  {
    if |s| == 0 then []
    else if f(s[0]) then [s[0]] + Filter(s[1..], f) else Filter(s[1..], f)
  }

  /** An element is kept exactly when it occurs in `s` and satisfies `f`. */
  lemma {:induction false} FilterMember<T>(s: seq<T>, f: T -> bool, x: T)
    ensures x in Filter(s, f) <==> x in s && f(x)
    decreases |s|
  {
    if |s| > 0 {
      FilterMember(s[1..], f, x);
      assert s == [s[0]] + s[1..];
    }
  }

  /** Every element kept by `Filter` satisfies `f` and comes from `s`. */
  lemma FilterMembers<T(!new)>(s: seq<T>, f: T -> bool)
    ensures forall x :: x in Filter(s, f) <==> x in s && f(x)
  {
    forall x ensures x in Filter(s, f) <==> x in s && f(x) {
      FilterMember(s, f, x);
    }
  }

  /** `Filter` keeps at most as many copies of each element as `s` has. */
  lemma {:induction false} FilterSubMultiset<T>(s: seq<T>, f: T -> bool)
    ensures multiset(Filter(s, f)) <= multiset(s)
    decreases |s|
  {
    if |s| > 0 {
      FilterSubMultiset(s[1..], f);
      assert s == [s[0]] + s[1..];
    }
  }

  /** Filtering a sequence with a known first element. */
  lemma FilterCons<T>(x: T, s: seq<T>, f: T -> bool)
    ensures Filter([x] + s, f) == if f(x) then [x] + Filter(s, f) else Filter(s, f)
  {
    assert ([x] + s)[1..] == s;
  }

  /** Filtering distributes over concatenation. */
  lemma {:induction false} FilterConcat<T>(a: seq<T>, b: seq<T>, f: T -> bool)
    ensures Filter(a + b, f) == Filter(a, f) + Filter(b, f)
    decreases |a|
  {
    if |a| == 0 {
      assert a + b == b;
    } else {
      assert (a + b)[0] == a[0];
      assert (a + b)[1..] == a[1..] + b;
      FilterConcat(a[1..], b, f);
    }
  }

  /** `r` is `s` with some elements left out: what remains keeps its order. */
  predicate IsSubsequence<T(==)>(r: seq<T>, s: seq<T>)
    decreases |s|
  {
    if |s| == 0 then |r| == 0
    else IsSubsequence(r, s[1..]) || (|r| > 0 && r[0] == s[0] && IsSubsequence(r[1..], s[1..]))
  }

  /** Leaving nothing out is a subsequence too. */
  lemma {:induction false} SubsequenceRefl<T>(s: seq<T>)
    ensures IsSubsequence(s, s)
    decreases |s|
  {
    if |s| > 0 {
      SubsequenceRefl(s[1..]);
    }
  }

  /** Filtering keeps the order of what it keeps. */
  lemma {:induction false} FilterSubsequence<T>(s: seq<T>, f: T -> bool)
    ensures IsSubsequence(Filter(s, f), s)
    decreases |s|
  {
    if |s| > 0 {
      FilterSubsequence(s[1..], f);
      if f(s[0]) {
        assert ([s[0]] + Filter(s[1..], f))[1..] == Filter(s[1..], f);
      }
    }
  }

  /** Filtering with a predicate every element satisfies changes nothing. */
  lemma {:induction false} FilterKeepsAll<T>(s: seq<T>, f: T -> bool)
    requires forall i :: 0 <= i < |s| ==> f(s[i])
    ensures Filter(s, f) == s
    decreases |s|
  {
    if |s| > 0 {
      FilterKeepsAll(s[1..], f);
    }
  }

  /** A predicate and its complement split a sequence into two parts whose
      multisets add up to the whole. */
  lemma {:induction false} FilterPartition<T>(s: seq<T>, f: T -> bool, g: T -> bool)
    requires forall x :: g(x) == !f(x)
    ensures multiset(Filter(s, f)) + multiset(Filter(s, g)) == multiset(s)
    decreases |s|
  {
    if |s| > 0 {
      FilterPartition(s[1..], f, g);
      assert s == [s[0]] + s[1..];
    }
  }

  /** The first element `Filter` keeps is the first element satisfying `f`. */
  lemma {:induction false} FilterFirst<T>(s: seq<T>, f: T -> bool, i: nat)
    requires i < |s| && f(s[i])
    requires forall j :: 0 <= j < i ==> !f(s[j])
    ensures |Filter(s, f)| > 0 && Filter(s, f)[0] == s[i]
    decreases i
  {
    if i > 0 {
      FilterFirst(s[1..], f, i - 1);
    }
  }

  /** `s.splice(i, 1)`: `s` without its element at index `i`. */
  function RemoveAt<T>(s: seq<T>, i: nat): (r: seq<T>)
    requires i < |s|
    ensures |r| == |s| - 1
    ensures multiset(r) + multiset{s[i]} == multiset(s)
  {
    assert s == s[..i] + [s[i]] + s[i + 1..];
    s[..i] + s[i + 1..]
  }

  /** `s.splice(i, 0, x)`: `s` with `x` placed at index `i`. */
  function InsertAt<T>(s: seq<T>, i: nat, x: T): (r: seq<T>)
    requires i <= |s|
    ensures |r| == |s| + 1 && r[i] == x
    ensures r[..i] == s[..i] && r[i + 1..] == s[i..]
    ensures multiset(r) == multiset(s) + multiset{x}
  {
    assert s == s[..i] + s[i..];
    s[..i] + [x] + s[i..]
  }

  /** `s.slice(0, n)` for a non-negative `n`. */
  function Take<T>(s: seq<T>, n: nat): (r: seq<T>)
    ensures |r| == if n < |s| then n else |s|
    ensures r <= s
  {
    if n < |s| then s[..n] else s
  }

  /** `x => x !== y`, as a value that can be passed to `Filter`. */
  function Differs<T(==)>(y: T): T -> bool {
    x => x != y
  }

  /** `[...new Set(s)]`: the distinct elements of `s` in order of first
      occurrence. */
  function Dedup<T(!new,==)>(s: seq<T>): (r: seq<T>)
    ensures forall x :: x in r <==> x in s
    ensures forall i, j :: 0 <= i < j < |r| ==> r[i] != r[j]
    decreases |s|
  {
    if |s| == 0 then []
    else
      var rest := Dedup(Filter(s[1..], Differs(s[0])));
      FilterMembers(s[1..], Differs(s[0]));
      assert forall x :: x in s <==> x == s[0] || x in s[1..];
      assert s[0] !in rest;
      var r := [s[0]] + rest;
      assert forall j :: 1 <= j < |r| ==> r[j] == rest[j - 1];
      r
  }

  /** Every element of `r` occurs in `s` before any occurrence of an element
      that comes after it in `r`: the order of first occurrence in `s`. */
  ghost predicate InFirstOccurrenceOrder<T>(r: seq<T>, s: seq<T>) {
    forall i, j, k :: 0 <= i < j < |r| && 0 <= k < |s| && s[k] == r[j] ==> r[i] in s[..k]
  }

  /** `Dedup` lists the distinct elements in the order in which a `Set` or
      a `Map` first meets them. */
  lemma {:induction false} DedupFirstOrder<T(!new)>(s: seq<T>)
    ensures InFirstOccurrenceOrder(Dedup(s), s)
    decreases |s|
  {
    if |s| > 0 {
      var h, t := s[0], s[1..];
      var f := Filter(t, Differs(h));
      var rest := Dedup(f);
      DedupFirstOrder(f);
      FilterMembers(t, Differs(h));
      var r := Dedup(s);
      assert r == [h] + rest;
      forall i, j, k | 0 <= i < j < |r| && 0 <= k < |s| && s[k] == r[j] ensures r[i] in s[..k] {
        assert r[j] == rest[j - 1] && r[j] in f;
        assert s[..k] == [h] + t[..k - 1];
        if i > 0 {
          FilteredPrefix(t, Differs(h), k - 1);
          var m := |Filter(t[..k - 1], Differs(h))|;
          assert rest[i - 1] in f[..m];
          FilterMembers(t[..k - 1], Differs(h));
        }
      }
    }
  }

  /** An element `f` keeps at index `k` sits in the filtered sequence just
      after what `f` keeps of the elements before it. */
  lemma FilteredPrefix<T>(t: seq<T>, f: T -> bool, k: nat)
    requires k < |t| && f(t[k])
    ensures var m := |Filter(t[..k], f)|;
            m < |Filter(t, f)| && Filter(t, f)[m] == t[k] && Filter(t, f)[..m] == Filter(t[..k], f)
  {
    assert t == t[..k] + ([t[k]] + t[k + 1..]);
    FilterConcat(t[..k], [t[k]] + t[k + 1..], f);
    FilterCons(t[k], t[k + 1..], f);
  }

  /** `ss.flat()`: the concatenation of the sequences of `ss`. */
  function Flatten<T(!new)>(ss: seq<seq<T>>): (r: seq<T>)
    ensures forall i, x :: 0 <= i < |ss| && x in ss[i] ==> x in r
    ensures forall x :: x in r ==> exists i :: 0 <= i < |ss| && x in ss[i]
    decreases |ss|
  {
    if |ss| == 0 then []
    else
      var rest := Flatten(ss[1..]);
      assert forall i :: 1 <= i < |ss| ==> ss[1..][i - 1] == ss[i];
      ss[0] + rest
  }

  /** Flattening distributes over concatenation: the elements of earlier
      sequences come first, each sequence in its own order. */
  lemma {:induction false} FlattenConcat<T(!new)>(a: seq<seq<T>>, b: seq<seq<T>>)
    ensures Flatten(a + b) == Flatten(a) + Flatten(b)
    decreases |a|
  {
    if |a| == 0 {
      assert a + b == b;
    } else {
      assert (a + b)[1..] == a[1..] + b;
      FlattenConcat(a[1..], b);
    }
  }

  /** Flattening one sequence gives it back. */
  lemma FlattenSingle<T(!new)>(x: seq<T>)
    ensures Flatten([x]) == x
  {
    assert Flatten([x]) == x + Flatten([x][1..]);
  }

  /** Index of the first element satisfying `f`, like `s.findIndex(f)`. */
  function FindFirst<T>(s: seq<T>, f: T -> bool): (r: Option<nat>)
    ensures r.None? ==> forall j :: 0 <= j < |s| ==> !f(s[j])
    ensures r.Some? ==> r.value < |s| && f(s[r.value]) && forall j :: 0 <= j < r.value ==> !f(s[j])
    decreases |s|
  {
    if |s| == 0 then None
    else if f(s[0]) then Some(0)
    else match FindFirst(s[1..], f)
      case None => None
      case Some(i) => Some(i + 1)
  }

  /** `Filter` keeps every copy of an element that satisfies `f` and none of
      one that does not. */
  lemma {:induction false} FilterCount<T>(s: seq<T>, f: T -> bool, x: T)
    ensures multiset(Filter(s, f))[x] == if f(x) then multiset(s)[x] else 0
    decreases |s|
  {
    if |s| > 0 {
      FilterCount(s[1..], f, x);
      assert s == [s[0]] + s[1..];
    }
  }

  /** Inserting an element the filter rejects does not change what it
      keeps. */
  lemma FilterInsertAt<T>(s: seq<T>, i: nat, x: T, f: T -> bool)
    requires i <= |s| && !f(x)
    ensures Filter(InsertAt(s, i, x), f) == Filter(s, f)
  {
    var a := s[..i];
    var b := s[i..];
    assert InsertAt(s, i, x) == a + [x] + b;
    assert s == a + b;
    FilterAround(a, x, b, f);
    FilterConcat(a, b, f);
  }

  /** A filter no element passes keeps nothing. */
  lemma FilterDropsAll<T>(s: seq<T>, f: T -> bool)
    requires forall i :: 0 <= i < |s| ==> !f(s[i])
    ensures Filter(s, f) == []
  {
    if |Filter(s, f)| > 0 {
      FilterMember(s, f, Filter(s, f)[0]);
    }
  }

  /** Filtering by a stronger condition after a weaker one is filtering by
      the stronger one alone. */
  lemma {:induction false} FilterFilter<T>(s: seq<T>, f: T -> bool, g: T -> bool)
    requires forall x :: g(x) ==> f(x)
    ensures Filter(Filter(s, f), g) == Filter(s, g)
    decreases |s|
  {
    if |s| > 0 {
      FilterFilter(s[1..], f, g);
      if f(s[0]) {
        FilterCons(s[0], Filter(s[1..], f), g);
      }
    }
  }

  /** A separator the filter drops leaves the two sides' results joined. */
  lemma FilterAround<T>(a: seq<T>, x: T, b: seq<T>, f: T -> bool)
    requires !f(x)
    ensures Filter(a + [x] + b, f) == Filter(a, f) + Filter(b, f)
  {
    FilterConcat(a + [x], b, f);
    FilterConcat(a, [x], f);
    assert Filter([x], f) == [];
  }
}
