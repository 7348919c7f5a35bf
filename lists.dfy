/**
 * Sequence helpers shared by the queries of the model: an order-preserving
 * filter (a `where` clause or `Collection::filter`), a stable sort by a numeric
 * key (`orderBy` / `sortBy`), and uniqueness of row identifiers.
 */
module Lists {

  /** The elements of `s` that satisfy `p`, in their original order. */
  function Filter<T(!new)>(s: seq<T>, p: T -> bool): (r: seq<T>)
    ensures |r| <= |s|
    ensures forall x :: x in r <==> x in s && p(x)
  {
    if s == [] then []
    else
      assert s == [s[0]] + s[1..];
      (if p(s[0]) then [s[0]] else []) + Filter(s[1..], p)
  }

  /** Each kept element is kept as often as it occurs; the others never. */
  lemma {:induction false} FilterCounts<T(!new)>(s: seq<T>, p: T -> bool, x: T)
    ensures multiset(Filter(s, p))[x] == if p(x) then multiset(s)[x] else 0
  {
    if s != [] {
      assert s == [s[0]] + s[1..];
      FilterCounts(s[1..], p, x);
    }
  }

  /** Filtering distributes over concatenation: the filter never reorders. */
  lemma {:induction false} FilterAppend<T(!new)>(a: seq<T>, b: seq<T>, p: T -> bool)
    ensures Filter(a + b, p) == Filter(a, p) + Filter(b, p)
  {
    if a == [] {
      assert a + b == b;
    } else {
      assert (a + b)[0] == a[0];
      assert (a + b)[1..] == a[1..] + b;
      FilterAppend(a[1..], b, p);
    }
  }

  /** No element passes the filter: the result is empty. */
  lemma {:induction false} FilterNone<T(!new)>(s: seq<T>, p: T -> bool)
    requires forall x :: x in s ==> !p(x)
    ensures Filter(s, p) == []
  {
    if s != [] {
      assert s[0] in s;
      FilterNone(s[1..], p);
    }
  }

  /** Two tests that agree on every element of `s` filter it alike. */
  lemma {:induction false} FilterCongruent<T(!new)>(s: seq<T>, p: T -> bool, q: T -> bool)
    requires forall x :: x in s ==> p(x) == q(x)
    ensures Filter(s, p) == Filter(s, q)
  {
    if s != [] {
      assert s[0] in s;
      assert forall x :: x in s[1..] ==> x in s;
      FilterCongruent(s[1..], p, q);
    }
  }

  ghost predicate SortedBy<T>(s: seq<T>, key: T -> real) {
    forall i, j :: 0 <= i < j < |s| ==> key(s[i]) <= key(s[j])
  }

  /**
   * Puts `x` in front of the trailing elements whose key exceeds key(x): on a
   * sorted `s` the result is sorted and `x` lands after the elements it ties
   * with, so repeated insertion is a stable sort.
   */
  function InsertBy<T>(s: seq<T>, x: T, key: T -> real): (r: seq<T>)
    ensures |r| == |s| + 1
    ensures multiset(r) == multiset(s) + multiset{x}
    ensures SortedBy(s, key) ==> SortedBy(r, key)
  {
    if s == [] || key(s[|s| - 1]) <= key(x) then s + [x]
    else
      var init, last := s[..|s| - 1], s[|s| - 1];
      assert s == init + [last];
      var r' := InsertBy(init, x, key);
      BoundedByLast(init, x, r', last, key);
      r' + [last]
  }

  /** Helper for InsertBy: what is inserted in front of `last` keys no higher. */
  lemma BoundedByLast<T>(init: seq<T>, x: T, r': seq<T>, last: T, key: T -> real)
    requires multiset(r') == multiset(init) + multiset{x}
    requires key(x) <= key(last)
    ensures SortedBy(init + [last], key) ==> forall e :: e in r' ==> key(e) <= key(last)
  {
    if SortedBy(init + [last], key) {
      forall e | e in r' ensures key(e) <= key(last) {
        assert e in multiset(r');
        if e != x {
          assert e in multiset(init);
          var k :| 0 <= k < |init| && init[k] == e;
          assert (init + [last])[k] == e && (init + [last])[|init|] == last;
        }
      }
    }
  }

  /** Stable insertion sort of `s` by ascending `key`. */
  function SortBy<T>(s: seq<T>, key: T -> real): (r: seq<T>)
    ensures |r| == |s|
    ensures multiset(r) == multiset(s)
    ensures SortedBy(r, key)
  {
    if s == [] then []
    else
      assert s == s[..|s| - 1] + [s[|s| - 1]];
      InsertBy(SortBy(s[..|s| - 1], key), s[|s| - 1], key)
  }

  /** A permutation has the same elements. */
  lemma SameElements<T>(a: seq<T>, b: seq<T>)
    requires multiset(a) == multiset(b)
    ensures forall x :: x in a <==> x in b
  {
    forall x ensures x in a <==> x in b {
      assert x in a <==> x in multiset(a);
      assert x in b <==> x in multiset(b);
    }
  }

  /** Every identifier occurs at most once in `s` (a primary key). */
  ghost predicate DistinctBy<T, K>(s: seq<T>, id: T -> K) {
    forall i, j :: 0 <= i < j < |s| ==> id(s[i]) != id(s[j])
  }

  /** Dropping the last element keeps identifiers unique, and no remaining element shares the last one's. */
  lemma DistinctInit<T, K>(s: seq<T>, id: T -> K)
    requires s != [] && DistinctBy(s, id)
    ensures DistinctBy(s[..|s| - 1], id)
    ensures forall x :: x in s[..|s| - 1] ==> id(x) != id(s[|s| - 1])
  {
    var init := s[..|s| - 1];
    forall i, j | 0 <= i < j < |init| ensures id(init[i]) != id(init[j]) {
      assert init[i] == s[i] && init[j] == s[j];
    }
    forall x | x in init ensures id(x) != id(s[|s| - 1]) {
      var i :| 0 <= i < |init| && init[i] == x;
      assert s[i] == x;
    }
  }

  /** An element found at two positions is counted at least twice. */
  lemma RepeatedCountsTwice<T>(s: seq<T>, i: int, j: int)
    requires 0 <= i < j < |s| && s[i] == s[j]
    ensures multiset(s)[s[i]] >= 2
  {
    assert s == s[..j] + s[j..];
    assert s[..j][i] == s[i];
    assert s[j..][0] == s[i];
    assert multiset(s[..j])[s[i]] >= 1;
    assert multiset(s[j..])[s[i]] >= 1;
  }

  /** An element counted at least twice is found at two positions. */
  lemma {:induction false} TwiceCountedRepeats<T>(s: seq<T>, x: T) returns (i: int, j: int)
    requires multiset(s)[x] >= 2
    ensures 0 <= i < j < |s| && s[i] == x && s[j] == x
  {
    assert x in multiset(s);
    var p :| 0 <= p < |s| && s[p] == x;
    var rest := s[..p] + s[p + 1..];
    assert s == s[..p] + [s[p]] + s[p + 1..];
    assert multiset(s) == multiset(rest) + multiset{x};
    assert x in multiset(rest);
    var q :| 0 <= q < |rest| && rest[q] == x;
    if q < p {
      assert s[q] == rest[q];
      i, j := q, p;
    } else {
      assert s[q + 1] == rest[q];
      i, j := p, q + 1;
    }
  }

  /** Reordering a list with unique identifiers keeps them unique. */
  lemma PermutationKeepsDistinct<T, K>(a: seq<T>, b: seq<T>, id: T -> K)
    requires multiset(a) == multiset(b)
    requires DistinctBy(a, id)
    ensures DistinctBy(b, id)
  {
    forall i, j | 0 <= i < j < |b| ensures id(b[i]) != id(b[j]) {
      var p, q;
      if b[i] == b[j] {
        RepeatedCountsTwice(b, i, j);
        p, q := TwiceCountedRepeats(a, b[i]);
      } else {
        assert b[i] in multiset(a) && b[j] in multiset(a);
        p :| 0 <= p < |a| && a[p] == b[i];
        q :| 0 <= q < |a| && a[q] == b[j];
      }
      if p < q {
        assert id(a[p]) != id(a[q]);
      } else {
        assert id(a[q]) != id(a[p]);
      }
    }
  }

  /** Filtering a list with unique identifiers keeps them unique. */
  lemma {:induction false} FilterKeepsDistinct<T(!new), K>(s: seq<T>, p: T -> bool, id: T -> K)
    requires DistinctBy(s, id)
    ensures DistinctBy(Filter(s, p), id)
  {
    if s != [] {
      var tail := s[1..];
      assert DistinctBy(tail, id) by {
        forall i, j | 0 <= i < j < |tail| ensures id(tail[i]) != id(tail[j]) {
          assert tail[i] == s[i + 1] && tail[j] == s[j + 1];
        }
      }
      FilterKeepsDistinct(tail, p, id);
      var rest := Filter(tail, p);
      if p(s[0]) {
        var r := [s[0]] + rest;
        assert Filter(s, p) == r;
        forall i, j | 0 <= i < j < |r| ensures id(r[i]) != id(r[j]) {
          if i == 0 {
            assert r[j] == rest[j - 1];
            assert rest[j - 1] in tail;
            var m :| 0 <= m < |tail| && tail[m] == rest[j - 1];
            assert s[m + 1] == r[j];
          } else {
            assert r[i] == rest[i - 1] && r[j] == rest[j - 1];
          }
        }
      } else {
        assert Filter(s, p) == rest;
      }
    }
  }

  /** Putting an element no larger than any other in front of a sorted list keeps it sorted. */
  lemma SortedCons<T>(h: T, s: seq<T>, key: T -> real)
    requires SortedBy(s, key)
    requires forall x :: x in s ==> key(h) <= key(x)
    ensures SortedBy([h] + s, key)
  {
    var r := [h] + s;
    forall i, j | 0 <= i < j < |r| ensures key(r[i]) <= key(r[j]) {
      assert r[j] == s[j - 1];
      if i > 0 {
        assert r[i] == s[i - 1];
      }
    }
  }

  /** Filtering a list sorted by a key keeps it sorted by that key. */
  lemma {:induction false} FilterKeepsSorted<T(!new)>(s: seq<T>, p: T -> bool, key: T -> real)
    requires SortedBy(s, key)
    ensures SortedBy(Filter(s, p), key)
  {
    if s != [] {
      var tail := s[1..];
      assert SortedBy(tail, key) by {
        forall i, j | 0 <= i < j < |tail| ensures key(tail[i]) <= key(tail[j]) {
          assert tail[i] == s[i + 1] && tail[j] == s[j + 1];
        }
      }
      FilterKeepsSorted(tail, p, key);
      var rest := Filter(tail, p);
      if p(s[0]) {
        assert Filter(s, p) == [s[0]] + rest;
        forall x | x in rest ensures key(s[0]) <= key(x) {
          var m :| 0 <= m < |tail| && tail[m] == x;
          assert s[m + 1] == x;
        }
        SortedCons(s[0], rest, key);
      } else {
        assert Filter(s, p) == rest;
      }
    }
  }

  /** `r` is `s` with some elements left out: what remains keeps its order and its repetitions. */
  ghost predicate IsSubsequence<T>(r: seq<T>, s: seq<T>)
    decreases |s|
  {
    if s == [] then r == []
    else IsSubsequence(r, s[1..]) || (r != [] && r[0] == s[0] && IsSubsequence(r[1..], s[1..]))
  }

  /** A list is a subsequence of itself. */
  lemma {:induction false} SubsequenceOfItself<T>(s: seq<T>)
    ensures IsSubsequence(s, s)
  {
    if s != [] {
      SubsequenceOfItself(s[1..]);
    }
  }

  /** Filtering leaves a subsequence: the kept elements in their original order. */
  lemma {:induction false} FilterIsSubsequence<T(!new)>(s: seq<T>, p: T -> bool)
    ensures IsSubsequence(Filter(s, p), s)
  {
    if s != [] {
      FilterIsSubsequence(s[1..], p);
      var rest := Filter(s[1..], p);
      if p(s[0]) {
        assert Filter(s, p) == [s[0]] + rest;
        assert Filter(s, p)[1..] == rest;
      } else {
        assert Filter(s, p) == rest;
      }
    }
  }
}
