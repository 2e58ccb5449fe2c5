/** Order-preserving selection over sequences: what a stream `filter`, or a
    database `WHERE` clause read back in table order, does to a list. */
module Seqs {

  /** `r` can be obtained from `s` by deleting elements. */
  ghost predicate IsSubsequence<T>(r: seq<T>, s: seq<T>)
    decreases |s|
  {
    r == [] || (s != [] && if r[0] == s[0] then IsSubsequence(r[1..], s[1..]) else IsSubsequence(r, s[1..]))
  }

  /** The elements of `s` that satisfy `p`, in order, duplicates kept. */
  function Filter<T(!new)>(s: seq<T>, p: T -> bool): (r: seq<T>)
    ensures |r| <= |s|
    ensures forall x :: x in r <==> x in s && p(x)
  {
    if s == [] then []
    else
      var rest := Filter(s[1..], p);
      assert s == [s[0]] + s[1..];
      if p(s[0]) then [s[0]] + rest else rest
  }

  /** Filtering keeps every occurrence of a selected element and none of
      the others: duplicates survive. */
  lemma {:induction false} FilterCounts<T(!new)>(s: seq<T>, p: T -> bool, x: T)
    ensures multiset(Filter(s, p))[x] == if p(x) then multiset(s)[x] else 0
  {
    if s != [] {
      FilterCounts(s[1..], p, x);
      assert s == [s[0]] + s[1..];
    }
  }

  /** Filtering keeps the original order. */
  lemma {:induction false} FilterIsSubsequence<T(!new)>(s: seq<T>, p: T -> bool)
    ensures IsSubsequence(Filter(s, p), s)
  {
    if s != [] {
      FilterIsSubsequence(s[1..], p);
      SubsequenceOfTail(Filter(s[1..], p), s);
    }
  }

  lemma {:induction false} SubsequenceOfTail<T>(r: seq<T>, s: seq<T>)
    requires s != [] && IsSubsequence(r, s[1..])
    ensures IsSubsequence(r, s) && IsSubsequence([s[0]] + r, s)
    decreases |s|, 0
  {
    assert ([s[0]] + r)[1..] == r;
    if r != [] && r[0] == s[0] {
      SubsequenceDropHead(r, s[1..]);
    }
  }

  lemma {:induction false} SubsequenceDropHead<T>(r: seq<T>, s: seq<T>)
    requires r != [] && IsSubsequence(r, s)
    ensures IsSubsequence(r[1..], s)
    decreases |s|, 1
  {
    if r[0] != s[0] {
      SubsequenceDropHead(r, s[1..]);
    }
    SubsequenceOfTail(r[1..], s);
  }

  /** Filtering by `p` and then by `q` is filtering by their conjunction `pq`. */
  lemma {:induction false} FilterFilter<T(!new)>(s: seq<T>, p: T -> bool, q: T -> bool, pq: T -> bool)
    requires forall x :: pq(x) == (p(x) && q(x))
    ensures Filter(Filter(s, p), q) == Filter(s, pq)
  {
    if s != [] {
      FilterFilter(s[1..], p, q, pq);
    }
  }

  /** Filtering with a predicate that every element satisfies changes nothing. */
  lemma {:induction false} FilterAll<T(!new)>(s: seq<T>, p: T -> bool)
    requires forall x :: x in s ==> p(x)
    ensures Filter(s, p) == s
  {
    if s != [] {
      FilterAll(s[1..], p);
    }
  }

  /** Two positions of `s`, in order, hold elements satisfying `p`. */
  ghost predicate TwoSatisfy<T>(s: seq<T>, p: T -> bool) {
    exists i, j :: 0 <= i < j < |s| && p(s[i]) && p(s[j])
  }

  /** Filtering selects two or more elements exactly when two positions of
      `s` satisfy `p`. */
  lemma {:induction false} FilterAtLeastTwo<T(!new)>(s: seq<T>, p: T -> bool)
    ensures |Filter(s, p)| >= 2 <==> exists i, j :: 0 <= i < j < |s| && p(s[i]) && p(s[j])
  {
    FilterTwoSatisfy(s, p);
  }

  lemma {:induction false} FilterTwoSatisfy<T(!new)>(s: seq<T>, p: T -> bool)
    ensures |Filter(s, p)| >= 2 <==> TwoSatisfy(s, p)
  {
    if s != [] {
      var rest := Filter(s[1..], p);
      FilterTwoSatisfy(s[1..], p);
      assert Filter(s, p) == if p(s[0]) then [s[0]] + rest else rest;
      if TwoSatisfy(s, p) {
        var i, j :| 0 <= i < j < |s| && p(s[i]) && p(s[j]);
        TwoSatisfyInTail(s, p, i, j);
      }
      if |Filter(s, p)| >= 2 {
        if p(s[0]) {
          TwoSatisfyFromHead(s, p);
        } else {
          TwoSatisfyFromTail(s, p);
        }
      }
    }
  }

  lemma TwoSatisfyFromHead<T(!new)>(s: seq<T>, p: T -> bool)
    requires s != [] && p(s[0]) && |Filter(s[1..], p)| >= 1
    ensures TwoSatisfy(s, p)
  {
    var rest := Filter(s[1..], p);
    assert rest[0] in rest;
    var j :| 0 <= j < |s[1..]| && s[1..][j] == rest[0];
    assert p(s[0]) && p(s[j + 1]);
  }

  lemma TwoSatisfyFromTail<T>(s: seq<T>, p: T -> bool)
    requires s != [] && TwoSatisfy(s[1..], p)
    ensures TwoSatisfy(s, p)
  {
    var i, j :| 0 <= i < j < |s[1..]| && p(s[1..][i]) && p(s[1..][j]);
    assert p(s[i + 1]) && p(s[j + 1]);
  }

  lemma TwoSatisfyInTail<T(!new)>(s: seq<T>, p: T -> bool, i: nat, j: nat)
    requires i < j < |s| && p(s[i]) && p(s[j])
    ensures if p(s[0]) then |Filter(s[1..], p)| >= 1 else TwoSatisfy(s[1..], p)
  {
    assert s[j] == s[1..][j - 1];
    assert s[j] in Filter(s[1..], p);
    if !p(s[0]) {
      assert s[i] == s[1..][i - 1];
    }
  }

  /** No two positions of `s` hold elements with the same key. */
  ghost predicate DistinctKeys<T, K>(s: seq<T>, key: T -> K) {
    forall i, j :: 0 <= i < |s| && 0 <= j < |s| && i != j ==> key(s[i]) != key(s[j])
  }

  /** The first two elements of a sequence with distinct keys differ in key. */
  lemma DistinctKeysFirstTwo<T, K>(s: seq<T>, key: T -> K)
    requires DistinctKeys(s, key)
    ensures |s| >= 2 ==> s[0] in s && s[1] in s && key(s[0]) != key(s[1])
  {
  }

  /** Filtering a sequence whose keys are pairwise distinct keeps them distinct. */
  lemma {:induction false} FilterKeepsKeysDistinct<T(!new), K>(s: seq<T>, p: T -> bool, key: T -> K)
    requires DistinctKeys(s, key)
    ensures DistinctKeys(Filter(s, p), key)
  {
    if s != [] {
      var tail := s[1..];
      assert DistinctKeys(tail, key) by {
        forall i, j | 0 <= i < |tail| && 0 <= j < |tail| && i != j ensures key(tail[i]) != key(tail[j]) {
          assert tail[i] == s[i + 1] && tail[j] == s[j + 1];
        }
      }
      FilterKeepsKeysDistinct(tail, p, key);
      var rest := Filter(tail, p);
      assert forall x :: x in rest ==> key(x) != key(s[0]) by {
        forall x | x in rest ensures key(x) != key(s[0]) {
          var k :| 0 <= k < |tail| && tail[k] == x;
          assert s[k + 1] == x;
        }
      }
      if p(s[0]) {
        var r := [s[0]] + rest;
        assert Filter(s, p) == r;
        forall i, j | 0 <= i < |r| && 0 <= j < |r| && i != j ensures key(r[i]) != key(r[j]) {
          if i == 0 {
            assert r[j] == rest[j - 1] && rest[j - 1] in rest;
          } else if j == 0 {
            assert r[i] == rest[i - 1] && rest[i - 1] in rest;
          } else {
            assert r[i] == rest[i - 1] && r[j] == rest[j - 1];
          }
        }
      }
    }
  }

  /** The image of a sequence under `f`, element by element. */
  function Map<T, U>(s: seq<T>, f: T -> U): (r: seq<U>)
    ensures |r| == |s|
    ensures forall i :: 0 <= i < |s| ==> r[i] == f(s[i])
  {
    if s == [] then [] else [f(s[0])] + Map(s[1..], f)
  }
}
