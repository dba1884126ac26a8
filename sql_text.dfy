/** String building blocks of the statement builders: Python's str.join,
    character counts, and a character search. */
module SqlText {
  import opened Wrappers

  /** sep.join(parts) */
  function Join(sep: string, parts: seq<string>): string {
    if |parts| == 0 then ""
    else if |parts| == 1 then parts[0]
    else Join(sep, parts[..|parts| - 1]) + sep + parts[|parts| - 1]
  }

  /** Appending one more part: what the first_done loops compute. */
  lemma {:induction false} JoinSnoc(sep: string, parts: seq<string>, x: string)
    ensures Join(sep, parts + [x]) == if parts == [] then x else Join(sep, parts) + sep + x
  {
    var ps := parts + [x];
    assert ps[..|ps| - 1] == parts;
    assert ps[|ps| - 1] == x;
  }

  /** The first |a| characters of a + b are a. Stated apart so that proofs
      over long statement texts need not unfold the concatenation. */
  lemma TakeConcat(a: string, b: string)
    ensures |a + b| >= |a| && (a + b)[..|a|] == a
  {
  }

  /** What follows the first |a| characters of a + b is b, stated apart
      for the same reason. */
  lemma DropConcat(a: string, b: string)
    ensures |a + b| >= |b| && (a + b)[|a|..] == b
  {
  }

  /** Regrouping a text built from five pieces, stated apart for the same
      reason. */
  lemma Regroup(a: string, b: string, c: string, d: string, e: string)
    ensures a + b + (c + d) + e == (a + (b + c)) + (d + e)
  {
  }

  /** Regrouping a text built from four pieces, for the same reason. */
  lemma Regroup4(a: string, b: string, c: string, d: string)
    ensures a + b + c + d == a + (b + c + d) && b + c + d == b + (c + d)
  {
  }

  /** The number of occurrences of `c` in `s`. */
  function CountChar(s: string, c: char): nat {
    multiset(s)[c]
  }

  /** A character that does not occur in `s` counts zero. */
  lemma {:induction false} AbsentCount(s: string, c: char)
    requires c !in s
    ensures CountChar(s, c) == 0
  {
    assert c !in multiset(s);
  }

  lemma {:induction false} CountCharConcat(a: string, b: string, c: char)
    ensures CountChar(a + b, c) == CountChar(a, c) + CountChar(b, c)
  {
    assert multiset(a + b) == multiset(a) + multiset(b);
  }

  lemma {:induction false} NoOccurrence(s: string, c: char)
    requires CountChar(s, c) == 0
    ensures forall k :: 0 <= k < |s| ==> s[k] != c
  {
    forall k | 0 <= k < |s| ensures s[k] != c {
      assert s[k] in multiset(s);
    }
  }

  /** Joining parts that each hold `c` once with a separator that does not
      hold it: one occurrence per part. */
  lemma {:induction false} CountCharJoinParts(sep: string, parts: seq<string>, c: char)
    requires CountChar(sep, c) == 0
    requires forall k :: 0 <= k < |parts| ==> CountChar(parts[k], c) == 1
    ensures CountChar(Join(sep, parts), c) == |parts|
  {
    if |parts| > 1 {
      var init := parts[..|parts| - 1];
      assert forall k :: 0 <= k < |init| ==> init[k] == parts[k];
      CountCharJoinParts(sep, init, c);
      assert Join(sep, parts) == Join(sep, init) + sep + parts[|parts| - 1];
    }
  }

  /** Joining parts that do not hold `c` with a separator that holds it
      once: one occurrence between each two parts. */
  lemma {:induction false} CountCharJoinSeparators(sep: string, parts: seq<string>, c: char)
    requires |parts| > 0
    requires CountChar(sep, c) == 1
    requires forall k :: 0 <= k < |parts| ==> CountChar(parts[k], c) == 0
    ensures CountChar(Join(sep, parts), c) == |parts| - 1
  {
    if |parts| > 1 {
      var init := parts[..|parts| - 1];
      assert forall k :: 0 <= k < |init| ==> init[k] == parts[k];
      CountCharJoinSeparators(sep, init, c);
      assert Join(sep, parts) == Join(sep, init) + sep + parts[|parts| - 1];
    }
  }

  /** The position of the first `c` in `s`. */
  function IndexOf(s: string, c: char): (r: Option<nat>)
    ensures r.None? <==> forall k :: 0 <= k < |s| ==> s[k] != c
    ensures r.Some? ==> r.value < |s| && s[r.value] == c &&
                        forall k :: 0 <= k < r.value ==> s[k] != c
  {
    if s == [] then None
    else if s[0] == c then Some(0)
    else match IndexOf(s[1..], c)
      case None => None
      case Some(i) => Some(i + 1)
  }

  /** A search that runs past a stretch without `c` stops right after it. */
  lemma {:induction false} IndexOfAfter(a: string, b: string, c: char)
    requires forall k :: 0 <= k < |a| ==> a[k] != c
    requires |b| > 0 && b[0] == c
    ensures IndexOf(a + b, c) == Some(|a|)
  {
    var s := a + b;
    assert s[|a|] == c;
    assert forall k :: 0 <= k < |a| ==> s[k] == a[k];
  }
}
