/** Order-preserving filtering of sequences: the meaning of a SELECT or a
    DELETE with a WHERE clause on a table kept as a sequence of rows. */
module Seqs {

  /** A prefix one element longer: the step of a loop over `s`. */
  lemma {:induction false} TakeOneMore<T>(s: seq<T>, k: int)
    requires 0 <= k < |s|
    ensures s[..k + 1] == s[..k] + [s[k]]
  {
  }

  /** The elements of `s` that satisfy `p`, in their original order. */
  function Filter<T>(s: seq<T>, p: T -> bool): (r: seq<T>)
    ensures |r| <= |s|
    ensures forall k :: 0 <= k < |r| ==> r[k] in s && p(r[k])
    ensures forall k :: 0 <= k < |s| && p(s[k]) ==> s[k] in r
  {
    if s == [] then []
    else if p(s[0]) then [s[0]] + Filter(s[1..], p)
    else Filter(s[1..], p)
  }

  lemma {:induction false} FilterConcat<T>(a: seq<T>, b: seq<T>, p: T -> bool)
    ensures Filter(a + b, p) == Filter(a, p) + Filter(b, p)
  {
    if a != [] {
      var ab := a + b;
      assert ab[0] == a[0] && ab[1..] == a[1..] + b;
      FilterConcat(a[1..], b, p);
      if p(a[0]) {
        assert Filter(ab, p) == [a[0]] + (Filter(a[1..], p) + Filter(b, p));
      }
    } else {
      assert a + b == b;
    }
  }

  /** Filtering twice keeps what passes both tests. */
  lemma {:induction false} FilterTwice<T>(s: seq<T>, p: T -> bool, q: T -> bool, pq: T -> bool)
    requires forall x :: pq(x) == (p(x) && q(x))
    ensures Filter(Filter(s, p), q) == Filter(s, pq)
  {
    if s != [] {
      FilterTwice(s[1..], p, q, pq);
    }
  }

  /** Two tests that agree on every element select the same subsequence. */
  lemma {:induction false} FilterAgree<T>(s: seq<T>, p: T -> bool, q: T -> bool)
    requires forall x :: x in s ==> p(x) == q(x)
    ensures Filter(s, p) == Filter(s, q)
  {
    if s != [] {
      assert forall x :: x in s[1..] ==> x in s;
      FilterAgree(s[1..], p, q);
    }
  }

  /** A filter that rejects nothing returns its input. */
  lemma {:induction false} FilterKeepsAll<T>(s: seq<T>, p: T -> bool)
    requires forall x :: x in s ==> p(x)
    ensures Filter(s, p) == s
  {
    if s != [] {
      assert forall x :: x in s[1..] ==> x in s;
      FilterKeepsAll(s[1..], p);
    }
  }

  /** A filter that accepts nothing returns nothing. */
  lemma {:induction false} FilterRejectsAll<T>(s: seq<T>, p: T -> bool)
    requires forall x :: x in s ==> !p(x)
    ensures Filter(s, p) == []
  {
    if s != [] {
      assert forall x :: x in s[1..] ==> x in s;
      FilterRejectsAll(s[1..], p);
    }
  }

  /** The first element of a filter is the first element of `s` that passes. */
  lemma {:induction false} FilterHead<T>(s: seq<T>, p: T -> bool)
    requires Filter(s, p) != []
    ensures exists k :: 0 <= k < |s| && s[k] == Filter(s, p)[0] && p(s[k]) &&
                        forall j :: 0 <= j < k ==> !p(s[j])
  {
    if !p(s[0]) {
      FilterHead(s[1..], p);
      var k :| 0 <= k < |s[1..]| && s[1..][k] == Filter(s[1..], p)[0] && p(s[1..][k]) &&
               forall j :: 0 <= j < k ==> !p(s[1..][j]);
      assert s[k + 1] == Filter(s, p)[0];
      assert forall j :: 1 <= j < k + 1 ==> s[j] == s[1..][j - 1];
    } else {
      assert s[0] == Filter(s, p)[0];
    }
  }

  /** `R` holds between every earlier and every later element of `s`. */
  predicate Pairwise<T>(s: seq<T>, R: (T, T) -> bool) {
    forall j, k :: 0 <= j < k < |s| ==> R(s[j], s[k])
  }

  /** Dropping the first element keeps the relation. */
  lemma {:induction false} PairwiseTail<T>(s: seq<T>, R: (T, T) -> bool)
    requires s != [] && Pairwise(s, R)
    ensures Pairwise(s[1..], R) && forall y :: y in s[1..] ==> R(s[0], y)
  {
    var t := s[1..];
    forall j, k | 0 <= j < k < |t| ensures R(t[j], t[k]) {
      assert t[j] == s[j + 1] && t[k] == s[k + 1];
    }
    forall y | y in t ensures R(s[0], y) {
      var m :| 0 <= m < |t| && t[m] == y;
      assert s[m + 1] == y;
    }
  }

  /** An element related to everything after it can be put in front. */
  lemma {:induction false} PairwiseCons<T>(x: T, f: seq<T>, R: (T, T) -> bool)
    requires Pairwise(f, R) && forall y :: y in f ==> R(x, y)
    ensures Pairwise([x] + f, R)
  {
    var r := [x] + f;
    forall j, k | 0 <= j < k < |r| ensures R(r[j], r[k]) {
      if j == 0 {
        assert r[k] == f[k - 1] && r[k] in f;
      } else {
        assert r[j] == f[j - 1] && r[k] == f[k - 1];
      }
    }
  }

  /** Filtering keeps the original order, so a relation between every
      earlier and later element survives it. */
  lemma {:induction false} FilterPairwise<T>(s: seq<T>, p: T -> bool, R: (T, T) -> bool)
    requires Pairwise(s, R)
    ensures Pairwise(Filter(s, p), R)
  {
    if s != [] {
      var t := s[1..];
      PairwiseTail(s, R);
      FilterPairwise(t, p, R);
      var f := Filter(t, p);
      if p(s[0]) {
        assert Filter(s, p) == [s[0]] + f;
        PairwiseCons(s[0], f, R);
      } else {
        assert Filter(s, p) == f;
      }
    }
  }
}
