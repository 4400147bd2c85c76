/** The three-way quicksort of generated_code/write_quicksort_in_python_attempt_1.py:
    the middle element is the pivot, the input is split into the values below,
    equal to and above it, in their original order, and the outer two parts
    are sorted recursively. */
module Quicksort {

  predicate Sorted(s: seq<int>) {
    forall i, j :: 0 <= i < j < |s| ==> s[i] <= s[j]
  }

  /** `[x for x in s if x < p]`. */
  function Below(s: seq<int>, p: int): (r: seq<int>)
    ensures forall x :: x in r ==> x < p
  {
    if s == [] then []
    else
      (if s[0] < p then [s[0]] else []) + Below(s[1..], p)
  }

  /** `[x for x in s if x == p]`. */
  function Equal(s: seq<int>, p: int): (r: seq<int>)
    ensures forall x :: x in r ==> x == p
    ensures p in s ==> |r| > 0
  {
    if s == [] then []
    else
      (if s[0] == p then [s[0]] else []) + Equal(s[1..], p)
  }

  /** `[x for x in s if x > p]`. */
  function Above(s: seq<int>, p: int): (r: seq<int>)
    ensures forall x :: x in r ==> x > p
  {
    if s == [] then []
    else
      (if s[0] > p then [s[0]] else []) + Above(s[1..], p)
  }

  /** The three parts hold every value of the input exactly once, each on
      its side of the pivot. */
  lemma {:induction false} Partition(s: seq<int>, p: int)
    ensures multiset(Below(s, p)) + multiset(Equal(s, p)) + multiset(Above(s, p)) == multiset(s)
    ensures |Below(s, p)| + |Equal(s, p)| + |Above(s, p)| == |s|
  {
    if s != [] {
      Partition(s[1..], p);
      assert s == [s[0]] + s[1..];
    }
  }

  /** Each part keeps every copy of the values on its side of the pivot and
      nothing else. */
  lemma {:induction false} BelowCount(s: seq<int>, p: int, x: int)
    ensures multiset(Below(s, p))[x] == if x < p then multiset(s)[x] else 0
  {
    if s != [] {
      BelowCount(s[1..], p, x);
      assert s == [s[0]] + s[1..];
      assert multiset(s) == multiset{s[0]} + multiset(s[1..]);
    }
  }

  lemma {:induction false} EqualCount(s: seq<int>, p: int, x: int)
    ensures multiset(Equal(s, p))[x] == if x == p then multiset(s)[x] else 0
  {
    if s != [] {
      EqualCount(s[1..], p, x);
      assert s == [s[0]] + s[1..];
      assert multiset(s) == multiset{s[0]} + multiset(s[1..]);
    }
  }

  lemma {:induction false} AboveCount(s: seq<int>, p: int, x: int)
    ensures multiset(Above(s, p))[x] == if x > p then multiset(s)[x] else 0
  {
    if s != [] {
      AboveCount(s[1..], p, x);
      assert s == [s[0]] + s[1..];
      assert multiset(s) == multiset{s[0]} + multiset(s[1..]);
    }
  }

  /** Sorted runs, each entirely below the next, concatenate to a sorted run. */
  lemma SortedConcat(l: seq<int>, m: seq<int>, r: seq<int>, p: int)
    requires Sorted(l) && Sorted(r)
    requires forall x :: x in l ==> x < p
    requires forall x :: x in m ==> x == p
    requires forall x :: x in r ==> x > p
    ensures Sorted(l + m + r)
  {
    var s := l + m + r;
    forall i, j | 0 <= i < j < |s| ensures s[i] <= s[j] {
      if i < |l| {
        assert s[i] in l;
      } else if i < |l| + |m| {
        assert s[i] in m;
      } else {
        assert s[i] == r[i - |l| - |m|];
      }
      if j < |l| {
        assert s[j] == l[j];
      } else if j < |l| + |m| {
        assert s[j] in m;
      } else {
        assert s[j] in r;
        assert s[j] == r[j - |l| - |m|];
      }
    }
  }

  /** The pivot is one of the values, so the outer parts are shorter than the
      input and the recursion ends. */
  lemma ShorterParts(s: seq<int>, p: int)
    requires p in s
    ensures |Below(s, p)| < |s| && |Above(s, p)| < |s|
  {
    Partition(s, p);
  }

  /** A sorted arrangement of each outer part, put around the middle part,
      is a sorted arrangement of the whole input. */
  lemma Combine(s: seq<int>, p: int, sl: seq<int>, sg: seq<int>)
    requires Sorted(sl) && multiset(sl) == multiset(Below(s, p))
    requires Sorted(sg) && multiset(sg) == multiset(Above(s, p))
    ensures Sorted(sl + Equal(s, p) + sg)
    ensures multiset(sl + Equal(s, p) + sg) == multiset(s)
  {
    Partition(s, p);
    forall x | x in sl ensures x < p {
      assert x in multiset(sl);
      assert x in Below(s, p);
    }
    forall x | x in sg ensures x > p {
      assert x in multiset(sg);
      assert x in Above(s, p);
    }
    SortedConcat(sl, Equal(s, p), sg, p);
  }

  /** `quicksort`. */
  function Sort(s: seq<int>): (r: seq<int>)
    ensures Sorted(r)
    ensures multiset(r) == multiset(s)
    ensures |s| <= 1 ==> r == s
    decreases |s|
  {
    if |s| <= 1 then s
    else
      var p := s[|s| / 2];
      ShorterParts(s, p);
      var sl, sg := Sort(Below(s, p)), Sort(Above(s, p));
      Combine(s, p, sl, sg);
      sl + Equal(s, p) + sg
  }

  /** The first value of a sorted sequence is its least. */
  lemma HeadIsLeast(a: seq<int>, x: int)
    requires Sorted(a) && x in multiset(a)
    ensures a[0] <= x
  {
    var i :| 0 <= i < |a| && a[i] == x;
  }

  /** A sorted arrangement of a multiset is unique. */
  lemma {:induction false} SortedUnique(a: seq<int>, b: seq<int>)
    requires Sorted(a) && Sorted(b) && multiset(a) == multiset(b)
    ensures a == b
    decreases |a|
  {
    if a != [] {
      assert |b| == |multiset(b)| == |multiset(a)| == |a|;
      HeadIsLeast(a, b[0]);
      HeadIsLeast(b, a[0]);
      assert a == [a[0]] + a[1..] && b == [b[0]] + b[1..];
      assert a[0] == b[0];
      assert multiset(a[1..]) == multiset(a) - multiset{a[0]};
      assert multiset(b[1..]) == multiset(b) - multiset{b[0]};
      assert multiset(a[1..]) == multiset(b[1..]);
      SortedUnique(a[1..], b[1..]);
    }
  }

  /** Sorting sorts: the result is the one sorted arrangement of the input. */
  lemma SortIsTheSortedPermutation(s: seq<int>, t: seq<int>)
    requires Sorted(t) && multiset(t) == multiset(s)
    ensures Sort(s) == t
  {
    SortedUnique(Sort(s), t);
  }

  /** The embedded tests: `[3, 1, 4, 1, 5]`, `[]` and `[1]`. */
  lemma TestedInputs(s: seq<int>)
    requires s == [3, 1, 4, 1, 5]
    ensures Sort(s) == [1, 1, 3, 4, 5]
    ensures Sort([]) == [] && Sort([1]) == [1]
  {
    var t := [1, 1, 3, 4, 5];
    assert multiset(s) == multiset{1, 1, 3, 4, 5} == multiset(t);
    assert Sorted(t);
    SortIsTheSortedPermutation(s, t);
  }
}
